/**
 Historical prices of one (provider, model): the catalogue query, the two-level interval cache in front of
 it, the rounded cost of a span, and the creation of a new price.

 Prices are in units of 10^-10 dollar per 1000 tokens, costs in units of 10^-8 dollar.
 */
module Pricing {
  import opened Options

  type Instant = int

  datatype Price = Price(from: Instant, to: Option<Instant>, input: nat, output: nat)

  predicate Covers(p: Price, t: Instant) {
    p.from <= t && (p.to.None? || p.to.value > t)
  }

  /** `ORDER BY valid_from DESC LIMIT 1` among the covering records. */
  function Lookup(catalogue: seq<Price>, t: Instant): Option<Price> {
    if catalogue == [] then None
    else
      var p := catalogue[|catalogue| - 1];
      var before := Lookup(catalogue[..|catalogue| - 1], t);
      if Covers(p, t) && (before.None? || before.value.from < p.from) then Some(p) else before
  }

  /** The table's UNIQUE (provider, model, valid_from). */
  ghost predicate UniqueStarts(catalogue: seq<Price>) {
    forall i, j :: 0 <= i < j < |catalogue| ==> catalogue[i].from != catalogue[j].from
  }

  lemma {:induction false} LookupIs(catalogue: seq<Price>, t: Instant)
    ensures Lookup(catalogue, t).None? <==> forall p :: p in catalogue ==> !Covers(p, t)
    ensures Lookup(catalogue, t).Some? ==>
              var best := Lookup(catalogue, t).value;
              && best in catalogue && Covers(best, t)
              && best.from <= t && (best.to.Some? ==> t < best.to.value)
              && forall p :: p in catalogue && Covers(p, t) ==> p.from <= best.from
  {
    if catalogue != [] {
      LookupIs(catalogue[..|catalogue| - 1], t);
      assert catalogue == catalogue[..|catalogue| - 1] + [catalogue[|catalogue| - 1]];
    }
  }

  lemma SameStartSamePrice(catalogue: seq<Price>, p: Price, q: Price)
    requires UniqueStarts(catalogue) && p in catalogue && q in catalogue && p.from == q.from
    ensures p == q
  {
    var i :| 0 <= i < |catalogue| && catalogue[i] == p;
    var j :| 0 <= j < |catalogue| && catalogue[j] == q;
    assert i == j;
  }

  // ---------------------------------------------------------------- cost

  /** Decimal division to an integer, ties to even. */
  function RoundHalfEven(n: nat, d: nat): nat
    requires d > 0
  {
    var q, r := n / d, n % d;
    if 2 * r < d || (2 * r == d && q % 2 == 0) then q else q + 1
  }

  /** The result is the nearest multiple, and the even one of two equally near: no other number has both. */
  lemma RoundHalfEvenIsNearest(n: nat, d: nat, x: nat)
    requires d > 0
    ensures var q := RoundHalfEven(n, d);
            && -(d as int) <= 2 * (n - q * d) <= d
            && (2 * (n - q * d) == d || 2 * (n - q * d) == -(d as int) ==> q % 2 == 0)
    ensures -(d as int) <= 2 * (n - x * d) <= d
            && (2 * (n - x * d) == d || 2 * (n - x * d) == -(d as int) ==> x % 2 == 0)
            ==> x == RoundHalfEven(n, d)
  {
    var q, r := n / d, n % d;
    assert n == q * d + r;
    assert (q + 1) * d == q * d + d;
    if x < q {
      assert x * d <= (q - 1) * d == q * d - d by { MulMonotone(x, q - 1, d); }
    } else if x > q + 1 {
      assert (q + 2) * d == q * d + 2 * d;
      assert x * d >= q * d + 2 * d by { MulMonotone(q + 2, x, d); }
    }
  }

  lemma MulMonotone(a: int, b: int, d: nat)
    requires a <= b
    ensures a * d <= b * d
  {
  }

  function ExactCost(p: Price, inputTokens: nat, outputTokens: nat): nat {
    p.input * inputTokens + p.output * outputTokens
  }

  /** Exact cost is in units of 10^-13 dollar, 10^5 of them make one unit of 10^-8. */
  function CostOf(p: Option<Price>, inputTokens: nat, outputTokens: nat): nat {
    if p.None? then 0 else RoundHalfEven(ExactCost(p.value, inputTokens, outputTokens), 100_000)
  }

  /**
   A span without a price costs nothing. With one, the cost in dollars is the number of 10^-8 dollars nearest to the
   rates per 1000 tokens times the tokens, the even one of two; 100000 tokens of one kind cost their rate exactly.
   */
  lemma CostIs(p: Price, inputTokens: nat, outputTokens: nat, cost: nat)
    ensures CostOf(None, inputTokens, outputTokens) == 0
    ensures CostOf(Some(p), 100_000, 0) == p.input && CostOf(Some(p), 0, 100_000) == p.output
    ensures var exact := (p.input * inputTokens + p.output * outputTokens) as real / 100_000.0;
            cost == CostOf(Some(p), inputTokens, outputTokens) <==>
              && cost as real - 0.5 <= exact <= cost as real + 0.5
              && (exact == cost as real + 0.5 || exact == cost as real - 0.5 ==> cost % 2 == 0)
  {
    NearestUnit(p.input * inputTokens + p.output * outputTokens, cost);
    HundredThousandTokens(p);
  }

  lemma NearestUnit(n: nat, cost: nat)
    ensures var exact := n as real / 100_000.0;
            cost == RoundHalfEven(n, 100_000) <==>
              && cost as real - 0.5 <= exact <= cost as real + 0.5
              && (exact == cost as real + 0.5 || exact == cost as real - 0.5 ==> cost % 2 == 0)
  {
    RoundHalfEvenIsNearest(n, 100_000, cost);
    assert n as real == n as real / 100_000.0 * 100_000.0;
  }

  lemma HundredThousandTokens(p: Price)
    ensures CostOf(Some(p), 100_000, 0) == p.input && CostOf(Some(p), 0, 100_000) == p.output
  {
    assert ExactCost(p, 100_000, 0) == p.input * 100_000 && ExactCost(p, 0, 100_000) == p.output * 100_000;
  }

  // ---------------------------------------------------------------- the cache

  /** What one batch remembers, and the single entry shared through Redis. */
  datatype Cache = Cache(batch: seq<Price>, redis: Option<Price>)

  function FirstCovering(prices: seq<Price>, t: Instant): Option<Price> {
    if prices == [] then None
    else
      var before := FirstCovering(prices[..|prices| - 1], t);
      if before.Some? || !Covers(prices[|prices| - 1], t) then before else Some(prices[|prices| - 1])
  }

  function Ask(catalogue: seq<Price>, cache: Cache, t: Instant): (Option<Price>, Cache) {
    var remembered := FirstCovering(cache.batch, t);
    if remembered.Some? then (remembered, cache)
    else if cache.redis.Some? && Covers(cache.redis.value, t)
    then (cache.redis, cache.(batch := cache.batch + [cache.redis.value]))
    else
      var found := Lookup(catalogue, t);
      if found.None? then (None, cache) else (found, Cache(cache.batch + [found.value], found))
  }

  /**
   An answer is remembered twice: at the same instant it is given again whatever the catalogue is by then, also when
   the shared entry has expired, and, unless it came from the batch's own list, also when a new batch has begun.
   */
  lemma AskRemembers(catalogue: seq<Price>, cache: Cache, t: Instant, later: seq<Price>, redis: Option<Price>)
    requires Ask(catalogue, cache, t).0.Some?
    ensures var (answer, after) := Ask(catalogue, cache, t);
            && Ask(later, after, t) == (answer, after)
            && Ask(later, after.(redis := redis), t).0 == answer
            && ((forall p :: p in cache.batch ==> !(p.from <= t && (p.to.Some? ==> t < p.to.value))) ==>
                  Ask(later, after.(batch := []), t).0 == answer)
  {
    FirstCoveringIs(cache.batch, t);
    LookupIs(catalogue, t);
    var (answer, after) := Ask(catalogue, cache, t);
    if FirstCovering(cache.batch, t).None? {
      assert after.batch == cache.batch + [answer.value];
      assert after.batch[..|cache.batch|] == cache.batch;
    }
  }

  type ModelKey = (string, string)

  class CostService {
    const catalogue: ModelKey -> seq<Price>
    var batch: map<ModelKey, seq<Price>>
    var redis: map<ModelKey, Price>

    constructor (catalogue: ModelKey -> seq<Price>, redis: map<ModelKey, Price>)
      ensures this.catalogue == catalogue && this.redis == redis && batch == map[]
    {
      this.catalogue, this.redis, batch := catalogue, redis, map[];
    }

    function CacheOf(k: ModelKey): Cache
      reads this
    {
      Cache(if k in batch then batch[k] else [], if k in redis then Some(redis[k]) else None)
    }

    method GetPricing(k: ModelKey, t: Instant) returns (p: Option<Price>)
      modifies this`redis
      ensures var found := Lookup(catalogue(k), t);
              if k in old(redis) && Covers(old(redis)[k], t) then p == Some(old(redis)[k]) && redis == old(redis)
              else p == found && redis == if found.Some? then old(redis)[k := found.value] else old(redis)
    {
      if k in redis && Covers(redis[k], t) {
        return Some(redis[k]);
      }
      p := Lookup(catalogue(k), t);
      if p.Some? {
        redis := redis[k := p.value];
      }
    }

    method GetBatchPricing(k: ModelKey, t: Instant) returns (p: Option<Price>)
      modifies this
      ensures (p, CacheOf(k)) == Ask(catalogue(k), old(CacheOf(k)), t)
      ensures batch - {k} == old(batch) - {k} && redis - {k} == old(redis) - {k}
    {
      var remembered := if k in batch then batch[k] else [];
      for i := 0 to |remembered|
        invariant batch == old(batch) && redis == old(redis)
        invariant FirstCovering(remembered[..i], t) == None
      {
        assert remembered[..i + 1][..i] == remembered[..i];
        if Covers(remembered[i], t) {
          FirstCoveringStays(remembered, i + 1, t);
          return Some(remembered[i]);
        }
      }
      assert remembered[..|remembered|] == remembered;
      p := GetPricing(k, t);
      if p.Some? {
        batch := batch[k := remembered + [p.value]];
      }
    }

    method Calculate(k: ModelKey, inputTokens: nat, outputTokens: nat, t: Instant) returns (cost: nat)
      modifies this
      ensures cost == CostOf(Ask(catalogue(k), old(CacheOf(k)), t).0, inputTokens, outputTokens)
      ensures CacheOf(k) == Ask(catalogue(k), old(CacheOf(k)), t).1
      ensures batch - {k} == old(batch) - {k} && redis - {k} == old(redis) - {k}
    {
      var p := GetBatchPricing(k, t);
      if p.None? {
        return 0;
      }
      var inputCost := p.value.input * inputTokens;
      var outputCost := p.value.output * outputTokens;
      cost := RoundHalfEven(inputCost + outputCost, 100_000);
    }
  }

  lemma {:induction false} FirstCoveringStays(prices: seq<Price>, n: nat, t: Instant)
    requires n <= |prices| && FirstCovering(prices[..n], t).Some?
    ensures FirstCovering(prices, t) == FirstCovering(prices[..n], t)
  {
    if n == |prices| {
      assert prices[..n] == prices;
    } else {
      assert prices[..|prices| - 1][..n] == prices[..n];
      FirstCoveringStays(prices[..|prices| - 1], n, t);
    }
  }

  // ---------------------------------------------------------------- when the cache is right

  predicate IsEmpty(p: Price) {
    p.to.Some? && p.to.value <= p.from
  }

  /** Decided on the endpoints: one interval ends before the other begins, or one is empty. */
  predicate Apart(p: Price, q: Price) {
    || IsEmpty(p) || IsEmpty(q)
    || (p.to.Some? && p.to.value <= q.from) || (q.to.Some? && q.to.value <= p.from)
  }

  lemma ApartMeansNoCommonInstant(p: Price, q: Price)
    ensures Apart(p, q) <==> forall t :: !(Covers(p, t) && Covers(q, t))
  {
    if !Apart(p, q) {
      var t := if p.from < q.from then q.from else p.from;
      assert Covers(p, t) && Covers(q, t);
    }
  }

  ghost predicate Disjoint(catalogue: seq<Price>) {
    forall i, j :: 0 <= i < j < |catalogue| ==> Apart(catalogue[i], catalogue[j])
  }

  ghost predicate FromCatalogue(catalogue: seq<Price>, cache: Cache) {
    && (forall p :: p in cache.batch ==> p in catalogue)
    && (cache.redis.Some? ==> cache.redis.value in catalogue)
  }

  /** What happens to the cache over time: lookups, expiry of the shared entry, the start of a new batch. */
  datatype Event = AskAt(t: Instant) | Expire | NewBatch

  function CacheAfter(catalogue: seq<Price>, cache: Cache, events: seq<Event>): Cache {
    if events == [] then cache
    else
      var before := CacheAfter(catalogue, cache, events[..|events| - 1]);
      match events[|events| - 1]
      case AskAt(t) => Ask(catalogue, before, t).1
      case Expire => before.(redis := None)
      case NewBatch => before.(batch := [])
  }

  const EMPTY := Cache([], None)

  /** After any history of the caches, the cached answer at `t` is the direct one. */
  ghost predicate CacheIsExact(catalogue: seq<Price>) {
    forall events, t :: Ask(catalogue, CacheAfter(catalogue, EMPTY, events), t).0 == Lookup(catalogue, t)
  }

  lemma {:induction false} FirstCoveringIs(prices: seq<Price>, t: Instant)
    ensures FirstCovering(prices, t).Some? ==>
            FirstCovering(prices, t).value in prices && Covers(FirstCovering(prices, t).value, t)
    ensures FirstCovering(prices, t).None? ==> forall p :: p in prices ==> !Covers(p, t)
  {
    if prices != [] {
      FirstCoveringIs(prices[..|prices| - 1], t);
      assert prices == prices[..|prices| - 1] + [prices[|prices| - 1]];
    }
  }

  lemma {:induction false} CacheStaysInCatalogue(catalogue: seq<Price>, events: seq<Event>)
    ensures FromCatalogue(catalogue, CacheAfter(catalogue, EMPTY, events))
  {
    if events != [] {
      CacheStaysInCatalogue(catalogue, events[..|events| - 1]);
      if events[|events| - 1].AskAt? {
        LookupIs(catalogue, events[|events| - 1].t);
      }
    }
  }

  /** In a disjoint catalogue, whatever record covers an instant is the record the query returns. */
  lemma CoveringIsLookup(catalogue: seq<Price>, p: Price, t: Instant)
    requires Disjoint(catalogue) && p in catalogue && Covers(p, t)
    ensures Lookup(catalogue, t) == Some(p)
  {
    LookupIs(catalogue, t);
    var best := Lookup(catalogue, t).value;
    var i :| 0 <= i < |catalogue| && catalogue[i] == p;
    var j :| 0 <= j < |catalogue| && catalogue[j] == best;
    ApartMeansNoCommonInstant(p, best);
    ApartMeansNoCommonInstant(best, p);
  }

  lemma DisjointIsExact(catalogue: seq<Price>, events: seq<Event>, t: Instant)
    requires Disjoint(catalogue)
    ensures Ask(catalogue, CacheAfter(catalogue, EMPTY, events), t).0 == Lookup(catalogue, t)
  {
    var cache := CacheAfter(catalogue, EMPTY, events);
    CacheStaysInCatalogue(catalogue, events);
    FirstCoveringIs(cache.batch, t);
    if FirstCovering(cache.batch, t).Some? {
      CoveringIsLookup(catalogue, FirstCovering(cache.batch, t).value, t);
    } else if cache.redis.Some? && Covers(cache.redis.value, t) {
      CoveringIsLookup(catalogue, cache.redis.value, t);
    }
  }

  /** Two overlapping records: ask where the earlier one starts, then where the later one starts. */
  lemma OverlapIsStale(catalogue: seq<Price>, p: Price, q: Price)
    requires UniqueStarts(catalogue) && p in catalogue && q in catalogue && p.from < q.from && !Apart(p, q)
    ensures Ask(catalogue, CacheAfter(catalogue, EMPTY, [AskAt(p.from)]), q.from).0 == Some(p)
    ensures Lookup(catalogue, q.from) != Some(p)
  {
    LookupIs(catalogue, p.from);
    var found := Lookup(catalogue, p.from);
    assert Covers(p, p.from) && Covers(p, q.from) && Covers(q, q.from);
    SameStartSamePrice(catalogue, p, found.value);
    assert [AskAt(p.from)][..0] == [];
    assert CacheAfter(catalogue, EMPTY, [AskAt(p.from)]) == Cache([p], Some(p)) by {
      assert [] + [p] == [p];
    }
    assert FirstCovering([p], q.from) == Some(p);
    LookupIs(catalogue, q.from);
  }

  /**
   The two-level cache answers like the direct query for every history of lookups, expiries and batches,
   if and only if the intervals of the catalogue are pairwise disjoint.
   */
  lemma CacheExactIffDisjoint(catalogue: seq<Price>)
    requires UniqueStarts(catalogue)
    ensures CacheIsExact(catalogue) <==> Disjoint(catalogue)
  {
    if Disjoint(catalogue) {
      forall events, t ensures Ask(catalogue, CacheAfter(catalogue, EMPTY, events), t).0 == Lookup(catalogue, t) {
        DisjointIsExact(catalogue, events, t);
      }
    } else {
      var i, j :| 0 <= i < j < |catalogue| && !Apart(catalogue[i], catalogue[j]);
      var p, q := catalogue[i], catalogue[j];
      if p.from < q.from {
        OverlapIsStale(catalogue, p, q);
      } else {
        OverlapIsStale(catalogue, q, p);
      }
    }
  }

  // ---------------------------------------------------------------- creating a price

  /** The UPDATE that closes the records open at the new start. */
  function Closed(p: Price, start: Instant): Price {
    if p.from < start && (p.to.None? || p.to.value > start) then p.(to := Some(start)) else p
  }

  datatype Creation = Created(catalogue: seq<Price>) | StartTaken   // unique violation, rolled back

  function CreatePrice(catalogue: seq<Price>, start: Instant, input: nat, output: nat): Creation {
    if exists p :: p in catalogue && p.from == start then StartTaken
    else Created(seq(|catalogue|, i requires 0 <= i < |catalogue| => Closed(catalogue[i], start))
                 + [Price(start, None, input, output)])
  }

  /** A creation is refused iff a record has its start; else it adds an open record and ends those open at its start. */
  lemma CreationIs(catalogue: seq<Price>, start: Instant, input: nat, output: nat)
    ensures var created := CreatePrice(catalogue, start, input, output);
            && (created.StartTaken? <==> exists i :: 0 <= i < |catalogue| && catalogue[i].from == start)
            && (created.Created? ==>
                  var after := created.catalogue;
                  && |after| == |catalogue| + 1 && after[|catalogue|] == Price(start, None, input, output)
                  && forall i :: 0 <= i < |catalogue| ==>
                       var p := catalogue[i];
                       && (after[i].from, after[i].input, after[i].output) == (p.from, p.input, p.output)
                       && after[i].to == (if p.from < start && (p.to.Some? ==> p.to.value > start) then Some(start)
                                          else p.to))
  {
    if i :| 0 <= i < |catalogue| && catalogue[i].from == start {
      assert catalogue[i] in catalogue;
    }
  }

  predicate SameRates(a: Option<Price>, b: Option<Price>) {
    a.None? == b.None? && (a.Some? ==>
        (a.value.from, a.value.input, a.value.output) == (b.value.from, b.value.input, b.value.output))
  }

  lemma CreatedMembers(catalogue: seq<Price>, start: Instant, input: nat, output: nat, after: seq<Price>)
    requires CreatePrice(catalogue, start, input, output) == Created(after)
    ensures forall p :: p in catalogue ==> Closed(p, start) in after && p.from != start
    ensures Price(start, None, input, output) in after
    ensures forall q :: q in after ==>
            q == Price(start, None, input, output) || exists p :: p in catalogue && q == Closed(p, start)
    ensures UniqueStarts(catalogue) ==> UniqueStarts(after)
  {
    forall p | p in catalogue ensures Closed(p, start) in after {
      var i :| 0 <= i < |catalogue| && catalogue[i] == p;
      assert after[i] == Closed(p, start);
    }
    forall q | q in after
      ensures q == Price(start, None, input, output) || exists p :: p in catalogue && q == Closed(p, start)
    {
      var i :| 0 <= i < |after| && after[i] == q;
      if i < |catalogue| {
        assert catalogue[i] in catalogue;
      }
    }
    forall i | 0 <= i < |catalogue| ensures after[i].from == catalogue[i].from != start {
      assert catalogue[i] in catalogue;
    }
  }

  /** History: before the new start every lookup gives the same start and rates as before. */
  lemma CreationKeepsHistory(
    catalogue: seq<Price>, start: Instant, input: nat, output: nat, t: Instant, after: seq<Price>)
    requires UniqueStarts(catalogue) && CreatePrice(catalogue, start, input, output) == Created(after) && t < start
    ensures SameRates(Lookup(after, t), Lookup(catalogue, t))
  {
    CreatedMembers(catalogue, start, input, output, after);
    LookupIs(catalogue, t);
    LookupIs(after, t);
    var old_, new_ := Lookup(catalogue, t), Lookup(after, t);
    if old_.Some? {
      assert Covers(Closed(old_.value, start), t);
    }
    if new_.Some? {
      var p :| p in catalogue && new_.value == Closed(p, start);
      assert Covers(p, t);
      SameStartSamePrice(catalogue, p, if p.from == old_.value.from then old_.value else p);
    }
  }

  /** From the new start on: the old answer where it began later than the new price, else the new price. */
  lemma CreationTakesOver(catalogue: seq<Price>, start: Instant, input: nat, output: nat, t: Instant, after: seq<Price>)
    requires UniqueStarts(catalogue) && CreatePrice(catalogue, start, input, output) == Created(after) && t >= start
    ensures var before := Lookup(catalogue, t);
            Lookup(after, t)
            == if before.Some? && before.value.from > start then before else Some(Price(start, None, input, output))
  {
    CreatedMembers(catalogue, start, input, output, after);
    LookupIs(catalogue, t);
    LookupIs(after, t);
    var before, now := Lookup(catalogue, t), Lookup(after, t).value;
    var created := Price(start, None, input, output);
    if before.Some? && before.value.from > start {
      assert Closed(before.value, start) == before.value;
    }
    if now != created {
      var p :| p in catalogue && now == Closed(p, start);
      assert p == now && p.from > start;
      SameStartSamePrice(catalogue, p, if p.from == before.value.from then before.value else p);
    }
  }

  /** A creation keeps the intervals disjoint if and only if no non-empty record begins after the new start. */
  lemma CreationKeepsDisjoint(catalogue: seq<Price>, start: Instant, input: nat, output: nat, after: seq<Price>)
    requires Disjoint(catalogue) && CreatePrice(catalogue, start, input, output) == Created(after)
    ensures Disjoint(after) <==> forall p :: p in catalogue && p.from > start ==> IsEmpty(p)
  {
    var n := |catalogue|;
    forall i | 0 <= i < n ensures catalogue[i].from != start && after[i] == Closed(catalogue[i], start) {
      assert catalogue[i] in catalogue;
    }
    if forall p :: p in catalogue && p.from > start ==> IsEmpty(p) {
      forall i, j | 0 <= i < j < |after| ensures Apart(after[i], after[j]) {
        assert catalogue[i] in catalogue;
        if j < n {
          assert Apart(catalogue[i], catalogue[j]);
        }
      }
    } else {
      var p :| p in catalogue && p.from > start && !IsEmpty(p);
      var i :| 0 <= i < n && catalogue[i] == p;
      assert !Apart(after[i], after[n]);
    }
  }
}
