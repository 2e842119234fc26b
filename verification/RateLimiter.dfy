/**
 The sliding-window request limiter over a Redis sorted set: trim, add, count, expire, in one atomic pipeline.

 Times are integer microseconds. The member string is made of the request's clock reading and an object
 identity, and its score is that reading, so a sorted set is the set of the requests in it.
 */
module RateLimiter {

  const SECOND := 1_000_000

  datatype Request = Request(now: nat, object: nat)

  datatype SortedSet = SortedSet(members: set<Request>, expiresAt: int)

  const NO_KEY := SortedSet({}, 0)

  datatype Answer = Allowed(remaining: nat) | TooManyRequests

  /** Redis drops the whole key once its time to live has run out. */
  function Live(z: SortedSet, now: nat): set<Request> {
    if now >= z.expiresAt then {} else z.members
  }

  /** `zremrangebyscore(key, 0, now - window)`: both ends included. */
  function Trim(members: set<Request>, now: nat, window: nat): set<Request> {
    set r | r in members && !(0 <= r.now <= now - window)
  }

  function Pipeline(z: SortedSet, r: Request, window: nat): SortedSet {
    SortedSet(Trim(Live(z, r.now), r.now, window) + {r}, r.now + window + SECOND)
  }

  function Decide(z: SortedSet, limit: nat): Answer {
    var count := |z.members|;
    if count > limit then TooManyRequests else Allowed(limit - count)
  }

  /**
   What a check leaves stored: its own request, and of those that had not expired the ones younger than a window.
   The key lives a second longer than the window.
   */
  lemma PipelineIs(z: SortedSet, r: Request, window: nat, x: Request)
    ensures var after := Pipeline(z, r, window);
            && (x in after.members <==>
                  x == r || (x in z.members && r.now < z.expiresAt && x.now > r.now - window))
            && after.expiresAt == r.now + window + 1_000_000
  {}

  class Limiter {
    const window: nat
    const limit: nat
    var keys: map<string, SortedSet>

    constructor (window: nat, limit: nat)
      ensures this.window == window && this.limit == limit && keys == map[]
    {
      this.window, this.limit, keys := window, limit, map[];
    }

    method Check(key: string, r: Request) returns (answer: Answer)
      modifies this
      ensures var z := Pipeline(if key in old(keys) then old(keys)[key] else NO_KEY, r, window);
              keys == old(keys)[key := z] && answer == Decide(z, limit)
    {
      var z := if key in keys then keys[key] else NO_KEY;
      var members := Live(z, r.now);
      members := Trim(members, r.now, window);
      members := members + {r};
      var count := |members|;
      keys := keys[key := SortedSet(members, r.now + window + SECOND)];
      if count > limit {
        return TooManyRequests;
      }
      var remaining := limit - count;
      return Allowed(remaining);
    }
  }

  // ---------------------------------------------------------------- runs on one key

  ghost predicate ClockNeverGoesBack(run: seq<Request>) {
    forall i, j :: 0 <= i < j < |run| ==> run[i].now <= run[j].now
  }

  ghost predicate DistinctMembers(run: seq<Request>) {
    forall i, j :: 0 <= i < j < |run| ==> run[i] != run[j]
  }

  function After(run: seq<Request>, window: nat): SortedSet {
    if run == [] then NO_KEY else Pipeline(After(run[..|run| - 1], window), run[|run| - 1], window)
  }

  /** The same run on a store that never expires a key. */
  function AfterWithoutExpiry(run: seq<Request>, window: nat): set<Request> {
    if run == [] then {}
    else
      var r := run[|run| - 1];
      Trim(AfterWithoutExpiry(run[..|run| - 1], window), r.now, window) + {r}
  }

  /** Whether the last request of the run is let through. */
  predicate LastAllowed(run: seq<Request>, window: nat, limit: nat) {
    Decide(After(run, window), limit).Allowed?
  }

  /** The requests of the run with `from <= now < to`. */
  function Between(run: seq<Request>, from: int, to: int): set<Request> {
    set r | r in run && from <= r.now < to
  }

  function CountBetween(run: seq<Request>, from: int, to: int): nat {
    if run == [] then 0
    else CountBetween(run[..|run| - 1], from, to) + if from <= run[|run| - 1].now < to then 1 else 0
  }

  /** How many requests with `from <= now < to` were let through. */
  function CountAllowed(run: seq<Request>, from: int, to: int, window: nat, limit: nat): nat {
    if run == [] then 0
    else
      CountAllowed(run[..|run| - 1], from, to, window, limit)
      + if from <= run[|run| - 1].now < to && LastAllowed(run, window, limit) then 1 else 0
  }

  lemma BetweenOnLast(run: seq<Request>, from: int, to: int)
    requires run != []
    ensures var r := run[|run| - 1];
            Between(run, from, to) == Between(run[..|run| - 1], from, to) + if from <= r.now < to then {r} else {}
  {
    assert run == run[..|run| - 1] + [run[|run| - 1]];
  }

  /**
   Trimming the window of the last request to that of a later one; when the key has expired, nothing is left to
   trim.
   */
  lemma ShiftWindow(run: seq<Request>, now: nat, window: nat)
    requires run != [] && ClockNeverGoesBack(run) && run[|run| - 1].now <= now
    ensures var last := run[|run| - 1].now;
            var stored := Between(run, last - window + 1, last + 1);
            var shifted := Between(run, now - window + 1, now + 1);
            Trim(stored, now, window) == shifted && (now >= last + window + SECOND ==> shifted == {})
  {
    var last := run[|run| - 1].now;
    forall r | r in run ensures r.now <= last {
      var i :| 0 <= i < |run| && run[i] == r;
    }
  }

  /** One pipeline run turns the window before the previous request into the window before this one. */
  lemma PipelineShifts(z: SortedSet, run: seq<Request>, window: nat)
    requires |run| > 1 && ClockNeverGoesBack(run) && window > 0
    requires var before := run[|run| - 2].now;
             z.members == Between(run[..|run| - 1], before - window + 1, before + 1)
                 && z.expiresAt == before + window + SECOND
    ensures var r := run[|run| - 1];
            && Pipeline(z, r, window).members == Between(run, r.now - window + 1, r.now + 1)
            && Trim(z.members, r.now, window) + {r} == Pipeline(z, r, window).members
  {
    var init, r := run[..|run| - 1], run[|run| - 1];
    BetweenOnLast(run, r.now - window + 1, r.now + 1);
    assert init[|init| - 1] == run[|run| - 2];
    ShiftWindow(init, r.now, window);
  }

  /**
   What is stored after a request: every request, let through or not, less than a window before it. Expiring
   the key therefore changes no decision.
   */
  lemma {:induction false} StoredIsTheWindow(run: seq<Request>, window: nat)
    requires run != [] && ClockNeverGoesBack(run) && window > 0
    ensures var last := run[|run| - 1].now;
            && After(run, window).members == Between(run, last - window + 1, last + 1)
            && After(run, window).expiresAt == last + window + SECOND
            && AfterWithoutExpiry(run, window) == After(run, window).members
  {
    var init, r := run[..|run| - 1], run[|run| - 1];
    if init != [] {
      StoredIsTheWindow(init, window);
      PipelineShifts(After(init, window), run, window);
    } else {
      BetweenOnLast(run, r.now - window + 1, r.now + 1);
      assert After(init, window) == NO_KEY;
    }
  }

  lemma {:induction false} CountIsSize(run: seq<Request>, from: int, to: int)
    requires DistinctMembers(run)
    ensures CountBetween(run, from, to) == |Between(run, from, to)|
  {
    if run != [] {
      var init, r := run[..|run| - 1], run[|run| - 1];
      CountIsSize(init, from, to);
      BetweenOnLast(run, from, to);
    }
  }

  lemma {:induction false} AllowedAreSome(run: seq<Request>, from: int, to: int, window: nat, limit: nat)
    ensures CountAllowed(run, from, to, window, limit) <= CountBetween(run, from, to)
  {
    if run != [] {
      AllowedAreSome(run[..|run| - 1], from, to, window, limit);
    }
  }

  lemma StoredCount(run: seq<Request>, window: nat)
    requires run != [] && ClockNeverGoesBack(run) && DistinctMembers(run) && window > 0
    ensures var last := run[|run| - 1].now;
            |After(run, window).members| == CountBetween(run, last - window + 1, last + 1)
  {
    var last := run[|run| - 1].now;
    assert After(run, window).members == Between(run, last - window + 1, last + 1) by {
      StoredIsTheWindow(run, window);
    }
    CountIsSize(run, last - window + 1, last + 1);
  }

  /** The exact decision: a request passes iff, with itself, at most `limit` requests fall in its window. */
  lemma DecisionIs(run: seq<Request>, window: nat, limit: nat)
    requires run != [] && ClockNeverGoesBack(run) && DistinctMembers(run) && window > 0
    ensures var last := run[|run| - 1].now;
            var count := CountBetween(run, last - window + 1, last + 1);
            Decide(After(run, window), limit) == if count <= limit then Allowed(limit - count) else TooManyRequests
  {
    StoredCount(run, window);
  }

  lemma SubsetSize(a: set<Request>, b: set<Request>)
    requires a <= b
    ensures |a| <= |b|
  {
    assert b == a + (b - a);
  }

  lemma {:induction false} CountAtLeastSize(run: seq<Request>, from: int, to: int)
    ensures CountBetween(run, from, to) >= |Between(run, from, to)|
  {
    if run != [] {
      CountAtLeastSize(run[..|run| - 1], from, to);
      BetweenOnLast(run, from, to);
    }
  }

  // ---------------------------------------------------------------- skewed clocks and repeated members

  /** Of two requests, the clock of the later one is at most `skew` behind that of the earlier one. */
  ghost predicate SkewAtMost(run: seq<Request>, skew: nat) {
    forall i, j :: 0 <= i < j < |run| ==> run[i].now <= run[j].now + skew
  }

  /** How many requests of the interval repeat the member string of another one. */
  function Repeats(run: seq<Request>, from: int, to: int): int {
    CountBetween(run, from, to) - |Between(run, from, to)|
  }

  lemma RepeatsGrow(run: seq<Request>, from: int, to: int)
    requires run != []
    ensures Repeats(run[..|run| - 1], from, to) <= Repeats(run, from, to)
  {
    BetweenOnLast(run, from, to);
  }

  lemma PipelineKeeps(z: SortedSet, r: Request, last: Request, window: nat)
    requires r == last || (r in z.members && last.now < z.expiresAt && last.now < r.now + window)
    ensures r in Pipeline(z, last, window).members
    ensures Pipeline(z, last, window).expiresAt == last.now + window + SECOND
  {}

  /** No request less than a window older than the latest reading has been dropped, by trimming or by expiry. */
  lemma {:induction false} StoredCovers(run: seq<Request>, window: nat, skew: nat, r: Request, i: nat)
    requires SkewAtMost(run, skew) && skew <= SECOND
    requires i < |run| && run[i] == r && forall k :: 0 <= k < |run| ==> run[k].now < r.now + window
    ensures r in After(run, window).members
    ensures After(run, window).expiresAt == run[|run| - 1].now + window + SECOND
  {
    var n := |run| - 1;
    if i < n {
      assert SkewAtMost(run[..n], skew);
      StoredCovers(run[..n], window, skew, r, i);
      assert r.now <= run[n - 1].now + skew;
    }
    PipelineKeeps(After(run[..n], window), r, run[n], window);
  }

  lemma IntervalIsStored(run: seq<Request>, from: int, window: nat, skew: nat)
    requires run != [] && SkewAtMost(run, skew) && skew <= SECOND && window > 0
    requires from <= run[|run| - 1].now < from + window - skew
    ensures Between(run, from, from + window - skew) <= After(run, window).members
  {
    forall r | r in Between(run, from, from + window - skew) ensures r in After(run, window).members {
      var i :| 0 <= i < |run| && run[i] == r;
      StoredCovers(run, window, skew, r, i);
    }
  }

  /**
   In every run, with clocks that go back by at most `skew`, no more than a second, no half-open interval as long
   as the window less that skew has more than `limit` requests let through, plus one for each repeated member.
   */
  lemma {:induction false} LimitHoldsUpToSkewAndRepeats(
    run: seq<Request>, from: int, window: nat, skew: nat, limit: nat)
    requires SkewAtMost(run, skew) && skew <= SECOND && window > 0
    ensures var to := from + window - skew;
            CountAllowed(run, from, to, window, limit) <= limit + Repeats(run, from, to)
  {
    var to := from + window - skew;
    if run != [] {
      if from <= run[|run| - 1].now < to && LastAllowed(run, window, limit) {
        IntervalIsStored(run, from, window, skew);
        SubsetSize(Between(run, from, to), After(run, window).members);
        AllowedAreSome(run, from, to, window, limit);
      } else {
        LimitHoldsUpToSkewAndRepeats(run[..|run| - 1], from, window, skew, limit);
        RepeatsGrow(run, from, to);
      }
    } else {
      assert Between(run, from, to) == {};
    }
  }

  /** With a clock that never goes back and distinct members the limit holds for the whole window. */
  lemma NoWindowExceedsTheLimit(run: seq<Request>, from: int, window: nat, limit: nat)
    requires ClockNeverGoesBack(run) && DistinctMembers(run) && window > 0
    ensures CountAllowed(run, from, from + window, window, limit) <= limit
  {
    LimitHoldsUpToSkewAndRepeats(run, from, window, 0, limit);
    CountIsSize(run, from, from + window);
  }

  // ---------------------------------------------------------------- one window and one limit

  ghost predicate KeepsLimit(run: seq<Request>, from: int, window: nat, limit: nat) {
    window > 0 ==> CountAllowed(run, from, from + window, window, limit) <= limit
  }

  /** The run that remains when only the requests at these positions are made. */
  function Keep(run: seq<Request>, kept: set<nat>): seq<Request> {
    if run == [] then []
    else
      var n := |run| - 1;
      Keep(run[..n], kept) + if n in kept then [run[n]] else []
  }

  lemma {:induction false} KeptAreRequests(run: seq<Request>, kept: set<nat>)
    ensures forall r :: r in Keep(run, kept) ==> r in run
  {
    if run != [] {
      KeptAreRequests(run[..|run| - 1], kept);
    }
  }

  lemma {:induction false} KeepsClock(run: seq<Request>, kept: set<nat>)
    requires ClockNeverGoesBack(run)
    ensures ClockNeverGoesBack(Keep(run, kept))
  {
    if run != [] {
      var init := run[..|run| - 1];
      KeepsClock(init, kept);
      KeptAreRequests(init, kept);
      forall i | 0 <= i < |Keep(init, kept)| ensures Keep(init, kept)[i].now <= run[|run| - 1].now {
        assert Keep(init, kept)[i] in init;
      }
    }
  }

  lemma CountOnLast(run: seq<Request>, r: Request, from: int, to: int)
    ensures CountBetween(run + [r], from, to) == CountBetween(run, from, to) + if from <= r.now < to then 1 else 0
    ensures Between(run + [r], from, to) == Between(run, from, to) + if from <= r.now < to then {r} else {}
    ensures Repeats(run + [r], from, to)
            == Repeats(run, from, to) + if from <= r.now < to && r in run then 1 else 0
  {
    assert (run + [r])[..|run|] == run;
    BetweenOnLast(run + [r], from, to);
    if from <= r.now < to && r in run {
      assert Between(run, from, to) + {r} == Between(run, from, to);
    }
  }

  lemma {:induction false} KeptCountLess(run: seq<Request>, kept: set<nat>, from: int, to: int)
    ensures CountBetween(Keep(run, kept), from, to) <= CountBetween(run, from, to)
    ensures Repeats(Keep(run, kept), from, to) <= Repeats(run, from, to)
  {
    if run != [] {
      var init, r := run[..|run| - 1], run[|run| - 1];
      KeptCountLess(init, kept, from, to);
      KeptAreRequests(init, kept);
      assert run == init + [r];
      CountOnLast(init, r, from, to);
      CountOnLast(Keep(init, kept), r, from, to);
      assert Keep(run, kept) == if |run| - 1 in kept then Keep(init, kept) + [r] else Keep(init, kept);
    }
  }

  /** More requests in the interval than the limit allows, and a repeated member string among them. */
  predicate OverfullWithRepeat(run: seq<Request>, from: int, window: nat, limit: nat) {
    CountBetween(run, from, from + window) > limit && Repeats(run, from, from + window) > 0
  }

  /** The stored members are requests of the run. */
  lemma {:induction false} StoredAreRequests(run: seq<Request>, window: nat)
    ensures forall r :: r in After(run, window).members ==> r in run
  {
    if run != [] {
      StoredAreRequests(run[..|run| - 1], window);
    }
  }

  ghost predicate AllWithin(run: seq<Request>, from: int, to: int) {
    forall r :: r in run ==> from <= r.now < to
  }

  /** With no more members than the limit, every request passes. */
  lemma {:induction false} AllPass(run: seq<Request>, from: int, to: int, window: nat, limit: nat)
    requires AllWithin(run, from, to) && |Between(run, from, to)| <= limit
    ensures CountAllowed(run, from, to, window, limit) == CountBetween(run, from, to) == |run|
  {
    if run != [] {
      var init, r := run[..|run| - 1], run[|run| - 1];
      assert run == init + [r];
      assert AllWithin(init, from, to);
      CountOnLast(init, r, from, to);
      SubsetSize(Between(init, from, to), Between(run, from, to));
      AllPass(init, from, to, window, limit);
      StoredAreRequests(run, window);
      SubsetSize(After(run, window).members, Between(run, from, to));
    }
  }

  /** Some positions of the run within the interval, `m` of them. */
  ghost predicate Picks(run: seq<Request>, kept: set<nat>, from: int, to: int, m: nat) {
    && (forall k :: k in kept ==> k < |run|) && AllWithin(Keep(run, kept), from, to) && |Keep(run, kept)| == m
  }

  lemma {:induction false} KeepBeyond(run: seq<Request>, kept: set<nat>, n: nat)
    requires n >= |run|
    ensures Keep(run, kept + {n}) == Keep(run, kept)
  {
    if run != [] {
      KeepBeyond(run[..|run| - 1], kept, n);
    }
  }

  /** Keeping the last request as well. */
  lemma PickLast(run: seq<Request>, kept: set<nat>, from: int, to: int, m: nat)
    requires run != [] && Picks(run[..|run| - 1], kept, from, to, m) && from <= run[|run| - 1].now < to
    ensures Picks(run, kept + {|run| - 1}, from, to, m + 1)
    ensures Keep(run, kept + {|run| - 1}) == Keep(run[..|run| - 1], kept) + [run[|run| - 1]]
  {
    KeepBeyond(run[..|run| - 1], kept, |run| - 1);
  }

  /** Leaving the last request out. */
  lemma SkipLast(run: seq<Request>, kept: set<nat>, from: int, to: int, m: nat)
    requires run != [] && Picks(run[..|run| - 1], kept, from, to, m)
    ensures Picks(run, kept, from, to, m) && Keep(run, kept) == Keep(run[..|run| - 1], kept)
  {}

  lemma {:induction false} PickSome(run: seq<Request>, from: int, to: int, m: nat) returns (kept: set<nat>)
    requires m <= CountBetween(run, from, to)
    ensures Picks(run, kept, from, to, m)
  {
    if run == [] {
      kept := {};
    } else {
      var init, r := run[..|run| - 1], run[|run| - 1];
      if m <= CountBetween(init, from, to) {
        kept := PickSome(init, from, to, m);
        SkipLast(run, kept, from, to, m);
      } else {
        var before := PickSome(init, from, to, m - 1);
        PickLast(run, before, from, to, m - 1);
        kept := before + {|run| - 1};
      }
    }
  }

  /** `m` requests of the interval, one of them with this member. */
  lemma {:induction false} PickWith(run: seq<Request>, x: Request, from: int, to: int, m: nat) returns (kept: set<nat>)
    requires x in run && from <= x.now < to && 0 < m <= CountBetween(run, from, to)
    ensures Picks(run, kept, from, to, m) && x in Keep(run, kept)
  {
    var init, r := run[..|run| - 1], run[|run| - 1];
    assert run == init + [r];
    if r == x {
      var before := PickSome(init, from, to, m - 1);
      PickLast(run, before, from, to, m - 1);
      kept := before + {|run| - 1};
    } else if m <= CountBetween(init, from, to) {
      kept := PickWith(init, x, from, to, m);
      SkipLast(run, kept, from, to, m);
    } else if m > 1 {
      var before := PickWith(init, x, from, to, m - 1);
      PickLast(run, before, from, to, m - 1);
      kept := before + {|run| - 1};
    } else {
      assert CountBetween(init, from, to) == 0;
      NoneCounted(init, x, from, to);
    }
  }

  lemma {:induction false} NoneCounted(run: seq<Request>, x: Request, from: int, to: int)
    requires x in run && from <= x.now < to
    ensures CountBetween(run, from, to) > 0
  {
    if run[|run| - 1] != x {
      assert run == run[..|run| - 1] + [run[|run| - 1]];
      NoneCounted(run[..|run| - 1], x, from, to);
    }
  }

  /** All requests of the interval. */
  lemma {:induction false} PickAll(run: seq<Request>, from: int, to: int) returns (kept: set<nat>)
    ensures Picks(run, kept, from, to, CountBetween(run, from, to))
    ensures Repeats(Keep(run, kept), from, to) == Repeats(run, from, to)
    ensures forall x :: x in run && from <= x.now < to ==> x in Keep(run, kept)
  {
    if run == [] {
      kept := {};
    } else {
      var init, r := run[..|run| - 1], run[|run| - 1];
      assert run == init + [r];
      var before := PickAll(init, from, to);
      CountOnLast(init, r, from, to);
      if from <= r.now < to {
        PickLast(run, before, from, to, CountBetween(init, from, to));
        kept := before + {|run| - 1};
        CountOnLast(Keep(init, before), r, from, to);
        KeptAreRequests(init, before);
      } else {
        SkipLast(run, before, from, to, CountBetween(init, from, to));
        kept := before;
      }
    }
  }

  /** From an overfull interval with a repeat, one request more than the limit, with a repeat among them. */
  lemma {:induction false} PickRepeat(run: seq<Request>, from: int, window: nat, limit: nat) returns (kept: set<nat>)
    requires OverfullWithRepeat(run, from, window, limit) && limit > 0
    ensures Picks(run, kept, from, from + window, limit + 1) && Repeats(Keep(run, kept), from, from + window) > 0
  {
    var to := from + window;
    var n := |run| - 1;
    var init, r := run[..n], run[n];
    assert run == init + [r];
    CountOnLast(init, r, from, to);
    if OverfullWithRepeat(init, from, window, limit) {
      kept := PickRepeat(init, from, window, limit);
      SkipLast(run, kept, from, to, limit + 1);
    } else if Repeats(init, from, to) > 0 {
      var before := PickAll(init, from, to);
      PickLast(run, before, from, to, limit);
      kept := before + {n};
      CountOnLast(Keep(init, before), r, from, to);
    } else {
      var before := PickWith(init, r, from, to, limit);
      PickLast(run, before, from, to, limit);
      kept := before + {n};
      CountOnLast(Keep(init, before), r, from, to);
      CountAtLeastSize(Keep(init, before), from, to);
    }
  }

  /** Whichever of the requests are made, the limit holds in every interval as long as the window. */
  ghost predicate AlwaysKeepsLimit(run: seq<Request>, window: nat, limit: nat) {
    forall kept, from :: KeepsLimit(Keep(run, kept), from, window, limit)
  }

  lemma OverfullBreaksLimit(run: seq<Request>, from: int, window: nat, limit: nat) returns (kept: set<nat>)
    requires window > 0 && limit > 0 && OverfullWithRepeat(run, from, window, limit)
    ensures !KeepsLimit(Keep(run, kept), from, window, limit)
  {
    kept := PickRepeat(run, from, window, limit);
    var made := Keep(run, kept);
    WithinCount(made, from, from + window);
    AllPass(made, from, from + window, window, limit);
  }

  lemma NoOverfullKeepsLimit(run: seq<Request>, kept: set<nat>, from: int, window: nat, limit: nat)
    requires ClockNeverGoesBack(run) && !OverfullWithRepeat(run, from, window, limit)
    ensures KeepsLimit(Keep(run, kept), from, window, limit)
  {
    if window > 0 {
      KeepsClock(run, kept);
      LimitHoldsUpToSkewAndRepeats(Keep(run, kept), from, window, 0, limit);
      AllowedAreSome(Keep(run, kept), from, from + window, window, limit);
      KeptCountLess(run, kept, from, from + window);
    }
  }

  /** With a limit of 0 nothing passes. */
  lemma {:induction false} NonePass(run: seq<Request>, from: int, to: int, window: nat)
    ensures CountAllowed(run, from, to, window, 0) == 0
  {
    if run != [] {
      NonePass(run[..|run| - 1], from, to, window);
      assert run[|run| - 1] in After(run, window).members;
    }
  }

  /**
   Exact at one window and one limit, with a clock that never goes back: whichever of the requests are made the
   limit holds, if and only if it is 0 or no interval as long as the window has more than `limit` requests with
   one member string twice among them.
   */
  lemma LimitHoldsIffNoOverfullRepeat(run: seq<Request>, window: nat, limit: nat)
    requires ClockNeverGoesBack(run) && window > 0
    ensures AlwaysKeepsLimit(run, window, limit)
            <==> limit == 0 || forall from :: !OverfullWithRepeat(run, from, window, limit)
  {
    if limit == 0 {
      forall kept, from ensures KeepsLimit(Keep(run, kept), from, window, limit) {
        NonePass(Keep(run, kept), from, from + window, window);
      }
    } else if from :| OverfullWithRepeat(run, from, window, limit) {
      var kept := OverfullBreaksLimit(run, from, window, limit);
    } else {
      forall kept, from ensures KeepsLimit(Keep(run, kept), from, window, limit) {
        NoOverfullKeepsLimit(run, kept, from, window, limit);
      }
    }
  }

  lemma {:induction false} WithinCount(run: seq<Request>, from: int, to: int)
    requires AllWithin(run, from, to)
    ensures CountBetween(run, from, to) == |run|
  {
    if run != [] {
      var init, r := run[..|run| - 1], run[|run| - 1];
      assert run == init + [r] && r in run && forall x :: x in init ==> x in run;
      WithinCount(init, from, to);
    }
  }

  // ---------------------------------------------------------------- clocks that go back

  lemma Extend(run: seq<Request>, r: Request, from: int, to: int, window: nat, limit: nat)
    ensures After(run + [r], window) == Pipeline(After(run, window), r, window)
    ensures CountAllowed(run + [r], from, to, window, limit)
            == CountAllowed(run, from, to, window, limit)
               + if from <= r.now < to && |Pipeline(After(run, window), r, window).members| <= limit then 1 else 0
  {
    assert (run + [r])[..|run|] == run;
  }

  /** Two requests at one instant, one a window later, and one whose clock is `skew` behind that. */
  function SkewedRun(window: nat, skew: nat): seq<Request>
    requires skew <= window
  {
    [Request(0, 0), Request(0, 1), Request(window, 0), Request(window - skew, 0)]
  }

  lemma SkewedPrefix(window: nat, to: int)
    requires 0 < to <= window
    ensures var run := [Request(0, 0), Request(0, 1), Request(window, 0)];
            && After(run, window) == SortedSet({Request(window, 0)}, 2 * window + SECOND)
            && CountAllowed(run, 0, to, window, 2) == 2
  {
    var a, b, c := Request(0, 0), Request(0, 1), Request(window, 0);
    Extend([], a, 0, to, window, 2);
    Extend([a], b, 0, to, window, 2);
    Extend([a, b], c, 0, to, window, 2);
    assert [] + [a] == [a] && [a] + [b] == [a, b] && [a, b] + [c] == [a, b, c];
    assert Pipeline(NO_KEY, a, window).members == {a};
    assert Pipeline(After([a], window), b, window).members == {a, b};
    assert Pipeline(After([a, b], window), c, window).members == {c};
  }

  lemma LastSkewed(window: nat, skew: nat)
    requires 0 < skew < window
    ensures var z := SortedSet({Request(window, 0)}, 2 * window + SECOND);
            |Pipeline(z, Request(window - skew, 0), window).members| == 2
  {
    var z := SortedSet({Request(window, 0)}, 2 * window + SECOND);
    assert Pipeline(z, Request(window - skew, 0), window).members == {Request(window, 0), Request(window - skew, 0)};
  }

  lemma SkewedRunIsSkewed(window: nat, skew: nat)
    requires 0 < skew < window
    ensures SkewAtMost(SkewedRun(window, skew), skew) && DistinctMembers(SkewedRun(window, skew))
  {}

  /**
   The bound is tight: for every window and every skew some run with that skew has three requests let through at a
   limit of 2, in an interval one microsecond longer than the window less the skew.
   */
  lemma SkewBreaksLongerIntervals(window: nat, skew: nat)
    requires 0 < skew < window
    ensures var run := SkewedRun(window, skew);
            && SkewAtMost(run, skew) && DistinctMembers(run)
            && CountAllowed(run, 0, window - skew + 1, window, 2) == 3
  {
    var a, b, c, d := Request(0, 0), Request(0, 1), Request(window, 0), Request(window - skew, 0);
    var to := window - skew + 1;
    SkewedRunIsSkewed(window, skew);
    SkewedPrefix(window, to);
    Extend([a, b, c], d, 0, to, window, 2);
    LastSkewed(window, skew);
    assert [a, b, c] + [d] == SkewedRun(window, skew);
  }
}
