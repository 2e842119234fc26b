/**
 Monthly partitions of the `spans` and `traces` tables: calendar arithmetic, partition names, the job that
 creates future partitions, and what any history of inserts and jobs leaves behind.
 */
module Partitions {
  import opened Numerals
  import opened Options

  const MICROS_PER_DAY := 86_400_000_000

  datatype Month = Month(year: int, month: int)

  /** The bounds of a partition: the instants from the start of one month to the start of another. */
  datatype Range = Range(from: Month, to: Month)

  predicate IsMonth(m: Month) {
    1 <= m.year && 1 <= m.month <= 12
  }

  // ---------------------------------------------------------------- the calendar

  /** Python's `//` and `%` floor, as Dafny's do for a positive divisor. */
  function AddMonths(m: Month, months: int): Month {
    var index := m.month - 1 + months;
    Month(m.year + index / 12, index % 12 + 1)
  }

  function Index(m: Month): int {
    12 * m.year + m.month - 1
  }

  predicate IsLeap(year: int) {
    year % 4 == 0 && (year % 100 != 0 || year % 400 == 0)
  }

  function DaysIn(m: Month): int {
    if m.month == 2 then (if IsLeap(m.year) then 29 else 28)
    else if m.month in [4, 6, 9, 11] then 30
    else 31
  }

  /** Days of the year before the month: February is taken as 30 days long and corrected. */
  function DaysBefore(m: Month): int {
    (367 * m.month - 362) / 12 - if m.month <= 2 then 0 else if IsLeap(m.year) then 1 else 2
  }

  /** The leap years from 1 to `year`. */
  function LeapYears(year: int): int {
    year / 4 - year / 100 + year / 400
  }

  /** Days from 0001-01-01 to the first of the month in the proleptic Gregorian calendar. */
  function FirstDay(m: Month): int {
    365 * (m.year - 1) + LeapYears(m.year - 1) + DaysBefore(m)
  }

  /** In microseconds. */
  function StartOf(m: Month): int {
    FirstDay(m) * MICROS_PER_DAY
  }

  /** `FOR VALUES FROM (month_start) TO (month_end)` */
  function RangeOf(m: Month): Range {
    Range(m, AddMonths(m, 1))
  }

  predicate Within(t: int, r: Range) {
    StartOf(r.from) <= t < StartOf(r.to)
  }

  /** Adding counts months one by one, in either direction. */
  lemma AddMonthsCounts(m: Month, a: int)
    requires IsMonth(m)
    ensures var r := AddMonths(m, a);
            Index(r) == Index(m) + a && 1 <= r.month <= 12 && (a >= 0 ==> IsMonth(r))
  {
    var i := m.month - 1 + a;
    assert i == 12 * (i / 12) + i % 12;
  }

  /** Adding composes, also across year ends, and adding nothing changes nothing. */
  lemma AddMonthsIsAdditive(m: Month, a: int, b: int)
    requires IsMonth(m)
    ensures AddMonths(AddMonths(m, a), b) == AddMonths(m, a + b)
    ensures AddMonths(m, 0) == m
  {
    var i := m.month - 1 + a;
    assert i == 12 * (i / 12) + i % 12;
    assert (i % 12 + b) / 12 + i / 12 == (i + b) / 12;
  }

  lemma IndexDecides(a: Month, b: Month)
    requires 1 <= a.month <= 12 && 1 <= b.month <= 12 && Index(a) == Index(b)
    ensures a == b
  {}

  lemma FourthsStep(year: int)
    ensures year / 4 == (year - 1) / 4 + if year % 4 == 0 then 1 else 0
  {}

  lemma HundredthsStep(year: int)
    ensures year / 100 == (year - 1) / 100 + if year % 100 == 0 then 1 else 0
  {}

  lemma FourHundredthsStep(year: int)
    ensures year / 400 == (year - 1) / 400 + if year % 400 == 0 then 1 else 0
  {}

  lemma LeapRule(year: int)
    ensures year % 400 == 0 ==> year % 100 == 0
    ensures year % 100 == 0 ==> year % 4 == 0
  {}

  /** The Gregorian count of leap days goes up by one exactly after a leap year. */
  lemma LeapDays(year: int)
    ensures LeapYears(year) == LeapYears(year - 1) + if IsLeap(year) then 1 else 0
  {
    FourthsStep(year);
    HundredthsStep(year);
    FourHundredthsStep(year);
    LeapRule(year);
  }

  lemma YearHasDays(year: int)
    ensures DaysBefore(Month(year, 12)) + 31 == if IsLeap(year) then 366 else 365
    ensures DaysBefore(Month(year + 1, 1)) == 0
  {}

  lemma DaysBeforeNext(m: Month)
    requires 1 <= m.month < 12
    ensures DaysBefore(Month(m.year, m.month + 1)) == DaysBefore(m) + DaysIn(m)
  {
    assert m.month in [1, 2, 3, 4, 5, 6, 7, 8, 9, 10, 11];
  }

  lemma FirstDayOfNext(m: Month)
    requires IsMonth(m)
    ensures FirstDay(AddMonths(m, 1)) == FirstDay(m) + DaysIn(m)
  {
    var next := AddMonths(m, 1);
    if m.month == 12 {
      assert next == Month(m.year + 1, 1);
      assert m == Month(m.year, 12);
      LeapDays(m.year);
      YearHasDays(m.year);
    } else {
      assert next == Month(m.year, m.month + 1);
      DaysBeforeNext(m);
    }
  }

  /** A month's range is exactly its days: consecutive ranges meet without gap or overlap. */
  lemma RangeIsTheMonth(m: Month)
    requires IsMonth(m)
    ensures StartOf(RangeOf(m).to) == StartOf(RangeOf(AddMonths(m, 1)).from)
            == StartOf(RangeOf(m).from) + DaysIn(m) * MICROS_PER_DAY
  {
    FirstDayOfNext(m);
  }

  lemma {:induction false} LaterMonthStartsLater(a: Month, b: Month)
    requires IsMonth(a) && IsMonth(b) && Index(a) < Index(b)
    ensures StartOf(RangeOf(a).to) <= StartOf(b)
    decreases Index(b) - Index(a)
  {
    var next := AddMonths(a, 1);
    AddMonthsCounts(a, 1);
    if Index(next) == Index(b) {
      IndexDecides(next, b);
    } else {
      LaterMonthStartsLater(next, b);
      RangeIsTheMonth(next);
    }
  }

  /** Every instant lies in the range of at most one month. */
  lemma RangesAreDisjoint(a: Month, b: Month, t: int)
    requires IsMonth(a) && IsMonth(b) && Within(t, RangeOf(a)) && Within(t, RangeOf(b))
    ensures a == b
  {
    if Index(a) < Index(b) {
      LaterMonthStartsLater(a, b);
    } else if Index(b) < Index(a) {
      LaterMonthStartsLater(b, a);
    } else {
      IndexDecides(a, b);
    }
  }

  /** Day numbers count from 0001-01-01; 1970-01-01 is day 719162. */
  lemma EpochIs()
    ensures FirstDay(Month(1, 1)) == 0 && FirstDay(Month(1970, 1)) == 719_162
  {}

  /** Every fourth year is a leap year, except every hundredth, except every four hundredth. */
  lemma LeapYearsAre()
    ensures DaysIn(Month(1900, 2)) == 28 && DaysIn(Month(2000, 2)) == 29
    ensures DaysIn(Month(2023, 2)) == 28 && DaysIn(Month(2024, 2)) == 29
  {}

  // ---------------------------------------------------------------- names

  /** `{year}_{month:02d}` */
  function Suffix(m: Month): string
    requires IsMonth(m)
  {
    Decimal(m.year) + "_" + [Digit(m.month / 10), Digit(m.month % 10)]
  }

  function PartitionName(table: string, m: Month): string
    requires IsMonth(m)
  {
    table + "_" + Suffix(m)
  }

  /** The month has two digits, the year as many as it needs. */
  lemma NameIs(table: string, m: Month)
    requires IsMonth(m)
    ensures PartitionName(table, m)
         == table + "_" + DecimalOf(m.year) + "_" + (if m.month < 10 then "0" else "") + DecimalOf(m.month)
  {
    var digits := [Digit(m.month / 10), Digit(m.month % 10)];
    assert digits == (if m.month < 10 then "0" else "") + Decimal(m.month);
  }

  /** Different months have different partition names. */
  lemma NamesAreDistinct(table: string, a: Month, b: Month)
    requires IsMonth(a) && IsMonth(b) && PartitionName(table, a) == PartitionName(table, b)
    ensures a == b
  {
    var s, t := PartitionName(table, a), PartitionName(table, b);
    var n := |s|;
    assert s[n - 1] == Digit(a.month % 10) && t[n - 1] == Digit(b.month % 10);
    assert s[n - 2] == Digit(a.month / 10) && t[n - 2] == Digit(b.month / 10);
    assert s[|table| + 1..n - 3] == Decimal(a.year) && t[|table| + 1..n - 3] == Decimal(b.year);
    DecimalIsInjective(a.year, b.year);
  }

  // ---------------------------------------------------------------- the job

  datatype Table = Table(name: string, partitions: map<string, Range>, defaultRows: seq<int>)

  predicate AnyWithin(rows: seq<int>, r: Range) {
    exists x :: x in rows && Within(x, r)
  }

  lemma AnyWithinLast(rows: seq<int>, x: int, r: Range)
    ensures AnyWithin(rows + [x], r) <==> AnyWithin(rows, r) || Within(x, r)
  {
    assert forall y :: y in rows + [x] <==> y in rows || y == x;
  }

  predicate DefaultHasRowIn(t: Table, r: Range) {
    AnyWithin(t.defaultRows, r)
  }

  /** Skips the month when the default partition has a row in it; creates it if it does not exist yet. */
  function CreateMonth(t: Table, m: Month): (Table, bool)
    requires IsMonth(m)
  {
    var name := PartitionName(t.name, m);
    if DefaultHasRowIn(t, RangeOf(m)) then (t, false)
    else if name in t.partitions then (t, true)
    else (t.(partitions := t.partitions[name := RangeOf(m)]), true)
  }

  /** `_future_partition_months`: the `lookahead` months after the current one. */
  function FutureMonths(current: Month, lookahead: nat): seq<Month> {
    seq(lookahead, i => AddMonths(current, i + 1))
  }

  ghost predicate AreMonths(months: seq<Month>) {
    forall m :: m in months ==> IsMonth(m)
  }

  lemma FutureMonthsHave(current: Month, lookahead: nat, m: Month)
    requires IsMonth(current)
    ensures m in FutureMonths(current, lookahead) <==> IsMonth(m) && Upcoming(current, lookahead, m)
  {
    var months := FutureMonths(current, lookahead);
    if m in months {
      var i :| 0 <= i < lookahead && months[i] == m;
      AddMonthsCounts(current, i + 1);
    }
    if IsMonth(m) && Upcoming(current, lookahead, m) {
      MonthAt(current, m);
      assert months[Index(m) - Index(current) - 1] == m;
    }
  }

  lemma FutureMonthsAreMonths(current: Month, lookahead: nat)
    requires IsMonth(current)
    ensures AreMonths(FutureMonths(current, lookahead))
  {
    forall m | m in FutureMonths(current, lookahead) ensures IsMonth(m) {
      FutureMonthsHave(current, lookahead, m);
    }
  }

  lemma MonthAt(current: Month, m: Month)
    requires IsMonth(current) && IsMonth(m)
    ensures AddMonths(current, Index(m) - Index(current)) == m
  {
    AddMonthsCounts(current, Index(m) - Index(current));
    IndexDecides(AddMonths(current, Index(m) - Index(current)), m);
  }

  predicate Upcoming(current: Month, lookahead: nat, m: Month) {
    Index(current) < Index(m) <= Index(current) + lookahead
  }

  function CreateMonths(t: Table, months: seq<Month>): (r: Table)
    requires AreMonths(months)
    ensures r.name == t.name && r.defaultRows == t.defaultRows
  {
    if months == [] then t
    else
      assert months[|months| - 1] in months;
      CreateMonth(CreateMonths(t, months[..|months| - 1]), months[|months| - 1]).0
  }

  class PartitionedTable {
    const name: string
    var partitions: map<string, Range>
    var defaultRows: seq<int>

    constructor (t: Table)
      ensures Contents() == t
    {
      name, partitions, defaultRows := t.name, t.partitions, t.defaultRows;
    }

    function Contents(): Table
      reads this
    {
      Table(name, partitions, defaultRows)
    }

    method DefaultPartitionRowCount(from: Month, to: Month) returns (count: nat)
      ensures count > 0 <==> DefaultHasRowIn(Contents(), Range(from, to))
    {
      count := 0;
      for i := 0 to |defaultRows|
        invariant count > 0 <==> AnyWithin(defaultRows[..i], Range(from, to))
      {
        AnyWithinLast(defaultRows[..i], defaultRows[i], Range(from, to));
        assert defaultRows[..i + 1] == defaultRows[..i] + [defaultRows[i]];
        if StartOf(from) <= defaultRows[i] && defaultRows[i] < StartOf(to) {
          count := count + 1;
        }
      }
      assert defaultRows[..|defaultRows|] == defaultRows;
    }

    method CreateMonthPartition(start: Month) returns (available: bool)
      requires IsMonth(start)
      modifies this`partitions
      ensures (Contents(), available) == CreateMonth(old(Contents()), start)
    {
      var end := AddMonths(start, 1);
      var rows := DefaultPartitionRowCount(start, end);
      if rows > 0 {
        return false;
      }
      var partition := PartitionName(name, start);
      if partition !in partitions {
        partitions := partitions[partition := Range(start, end)];
      }
      return true;
    }
  }

  method CreateNextMonthPartition(traces: PartitionedTable, spans: PartitionedTable, now: Month, lookahead: nat)
    requires traces != spans && IsMonth(now)
    modifies traces`partitions, spans`partitions
    ensures AreMonths(FutureMonths(now, lookahead))
    ensures traces.Contents() == CreateMonths(old(traces.Contents()), FutureMonths(now, lookahead))
    ensures spans.Contents() == CreateMonths(old(spans.Contents()), FutureMonths(now, lookahead))
  {
    FutureMonthsAreMonths(now, lookahead);
    var months := FutureMonths(now, lookahead);
    for i := 0 to |months|
      invariant traces.Contents() == CreateMonths(old(traces.Contents()), months[..i])
      invariant spans.Contents() == CreateMonths(old(spans.Contents()), months[..i])
    {
      assert months[..i + 1][..i] == months[..i];
      var forTraces := traces.CreateMonthPartition(months[i]);
      var forSpans := spans.CreateMonthPartition(months[i]);
    }
    assert months[..|months|] == months;
  }

  // ---------------------------------------------------------------- invariant

  /** Each partition is named after the month it holds, and no default row lies in any of them. */
  ghost predicate Tiled(t: Table) {
    forall n :: n in t.partitions ==> HoldsAMonth(t, n)
  }

  ghost predicate HoldsAMonth(t: Table, n: string)
    requires n in t.partitions
  {
    exists m :: IsMonth(m) && Holds(t, n, m)
  }

  ghost predicate Holds(t: Table, n: string, m: Month)
    requires n in t.partitions && IsMonth(m)
  {
    n == PartitionName(t.name, m) && t.partitions[n] == RangeOf(m) && !DefaultHasRowIn(t, RangeOf(m))
  }

  predicate HasPartition(t: Table, m: Month)
    requires IsMonth(m)
  {
    PartitionName(t.name, m) in t.partitions
  }

  /** Partitions never overlap: an instant lies in at most one, and then that is its month's. */
  lemma TiledIsDisjoint(t: Table, a: string, b: string, x: int)
    requires Tiled(t) && a in t.partitions && b in t.partitions && Within(x, t.partitions[a])
             && Within(x, t.partitions[b])
    ensures a == b
  {
    assert HoldsAMonth(t, a) && HoldsAMonth(t, b);
    var m :| IsMonth(m) && Holds(t, a, m);
    var k :| IsMonth(k) && Holds(t, b, k);
    RangesAreDisjoint(m, k, x);
  }

  /** In a tiled table a month with a partition has exactly its range there and no row in the default partition. */
  lemma PartitionHoldsItsMonth(t: Table, m: Month)
    requires Tiled(t) && IsMonth(m) && HasPartition(t, m)
    ensures t.partitions[PartitionName(t.name, m)] == RangeOf(m) && !DefaultHasRowIn(t, RangeOf(m))
  {
    var n := PartitionName(t.name, m);
    assert HoldsAMonth(t, n);
    var k :| IsMonth(k) && Holds(t, n, k);
    NamesAreDistinct(t.name, m, k);
  }

  lemma CreateMonthKeepsTiled(t: Table, m: Month)
    requires Tiled(t) && IsMonth(m)
    ensures Tiled(CreateMonth(t, m).0)
  {
    var after := CreateMonth(t, m).0;
    forall n | n in after.partitions ensures HoldsAMonth(after, n) {
      if n in t.partitions {
        assert HoldsAMonth(t, n);
        var k :| IsMonth(k) && Holds(t, n, k);
        assert Holds(after, n, k);
      } else {
        assert Holds(after, n, m);
      }
    }
  }

  /** A month gets its partition iff no default row lies in it; no other month's partition comes or goes. */
  lemma CreateMonthIs(t: Table, m: Month, k: Month)
    requires Tiled(t) && IsMonth(m) && IsMonth(k)
    ensures var (after, available) := CreateMonth(t, m);
            && (available <==> HasPartition(after, m))
            && (HasPartition(after, k) <==> if k == m then !DefaultHasRowIn(t, RangeOf(m)) else HasPartition(t, k))
  {
    if HasPartition(t, m) {
      PartitionHoldsItsMonth(t, m);
    }
    if PartitionName(t.name, k) == PartitionName(t.name, m) {
      NamesAreDistinct(t.name, k, m);
    }
  }

  lemma {:induction false} CreateMonthsKeepsTiled(t: Table, months: seq<Month>)
    requires Tiled(t) && AreMonths(months)
    ensures Tiled(CreateMonths(t, months))
  {
    if months != [] {
      assert months[|months| - 1] in months;
      CreateMonthsKeepsTiled(t, months[..|months| - 1]);
      CreateMonthKeepsTiled(CreateMonths(t, months[..|months| - 1]), months[|months| - 1]);
    }
  }

  lemma {:induction false} CreateMonthsIs(t: Table, months: seq<Month>, m: Month)
    requires Tiled(t) && AreMonths(months) && IsMonth(m)
    ensures HasPartition(CreateMonths(t, months), m)
            <==> if m in months then !DefaultHasRowIn(t, RangeOf(m)) else HasPartition(t, m)
  {
    if months != [] {
      var init, last := months[..|months| - 1], months[|months| - 1];
      assert months == init + [last] && last in months;
      CreateMonthsIs(t, init, m);
      CreateMonthsKeepsTiled(t, init);
      CreateMonthIs(CreateMonths(t, init), last, m);
    }
  }

  // ---------------------------------------------------------------- histories

  /** A row is stored with its instant, or the daily job runs in a month. */
  datatype Event = Insert(at: int) | Job(month: Month)

  predicate HasRoute(t: Table, at: int) {
    exists n :: n in t.partitions && Within(at, t.partitions[n])
  }

  function RunJob(t: Table, month: Month, lookahead: nat): (r: Table)
    requires IsMonth(month)
    ensures r.name == t.name
  {
    FutureMonthsAreMonths(month, lookahead);
    CreateMonths(t, FutureMonths(month, lookahead))
  }

  function Next(t: Table, e: Event, lookahead: nat): (r: Table)
    requires e.Job? ==> IsMonth(e.month)
    ensures r.name == t.name
  {
    match e
    case Insert(at) => if HasRoute(t, at) then t else t.(defaultRows := t.defaultRows + [at])
    case Job(month) => RunJob(t, month, lookahead)
  }

  /**
   Among the `lookahead` months after the current one, a month has a partition after the job iff the default
   partition holds no row of it; the job neither adds nor drops any other month's.
   */
  lemma JobIs(t: Table, current: Month, lookahead: nat, m: Month)
    requires Tiled(t) && IsMonth(current) && IsMonth(m)
    ensures var after := RunJob(t, current, lookahead);
            && Tiled(after) && after.defaultRows == t.defaultRows
            && (HasPartition(after, m) <==>
                  if Upcoming(current, lookahead, m) then !DefaultHasRowIn(t, RangeOf(m)) else HasPartition(t, m))
  {
    FutureMonthsAreMonths(current, lookahead);
    FutureMonthsHave(current, lookahead, m);
    CreateMonthsKeepsTiled(t, FutureMonths(current, lookahead));
    CreateMonthsIs(t, FutureMonths(current, lookahead), m);
  }

  ghost predicate RealMonths(events: seq<Event>) {
    forall e :: e in events && e.Job? ==> IsMonth(e.month)
  }

  ghost function Run(t: Table, events: seq<Event>, lookahead: nat): (r: Table)
    requires RealMonths(events)
    ensures r.name == t.name
  {
    if events == [] then t
    else
      assert events[|events| - 1] in events;
      Next(Run(t, events[..|events| - 1], lookahead), events[|events| - 1], lookahead)
  }

  lemma NextKeepsTiled(t: Table, e: Event, lookahead: nat)
    requires Tiled(t) && (e.Job? ==> IsMonth(e.month))
    ensures Tiled(Next(t, e, lookahead))
  {
    match e
    case Job(month) =>
      JobIs(t, month, lookahead, month);
    case Insert(at) =>
      var after := Next(t, e, lookahead);
      forall n | n in after.partitions ensures HoldsAMonth(after, n) {
        assert HoldsAMonth(t, n);
        var m :| IsMonth(m) && Holds(t, n, m);
        AnyWithinLast(t.defaultRows, at, RangeOf(m));
        assert Holds(after, n, m);
      }
  }

  lemma NextKeeps(t: Table, e: Event, lookahead: nat, m: Month)
    requires Tiled(t) && (e.Job? ==> IsMonth(e.month)) && IsMonth(m)
    ensures HasPartition(t, m) ==> HasPartition(Next(t, e, lookahead), m)
    ensures DefaultHasRowIn(t, RangeOf(m)) ==> DefaultHasRowIn(Next(t, e, lookahead), RangeOf(m))
  {
    match e
    case Job(month) =>
      JobIs(t, month, lookahead, m);
      if HasPartition(t, m) {
        PartitionHoldsItsMonth(t, m);
      }
    case Insert(at) =>
      AnyWithinLast(t.defaultRows, at, RangeOf(m));
  }

  /**
   Every history keeps the tiling. Partitions are for ever, and so is a default row's hold on its month: once
   the default partition has a row of a month, that month never gets a partition.
   */
  lemma {:induction false} RunKeeps(t: Table, events: seq<Event>, lookahead: nat, m: Month)
    requires Tiled(t) && RealMonths(events) && IsMonth(m)
    ensures var after := Run(t, events, lookahead);
            && Tiled(after)
            && (HasPartition(t, m) ==> HasPartition(after, m))
            && (DefaultHasRowIn(t, RangeOf(m)) ==> DefaultHasRowIn(after, RangeOf(m)) && !HasPartition(after, m))
  {
    if events != [] {
      var init, last := events[..|events| - 1], events[|events| - 1];
      assert last in events;
      RunKeeps(t, init, lookahead, m);
      NextKeepsTiled(Run(t, init, lookahead), last, lookahead);
      NextKeeps(Run(t, init, lookahead), last, lookahead, m);
    }
    if HasPartition(Run(t, events, lookahead), m) {
      PartitionHoldsItsMonth(Run(t, events, lookahead), m);
    }
  }

  function LastJob(events: seq<Event>): Option<Month> {
    if events == [] then None
    else if events[|events| - 1].Job? then Some(events[|events| - 1].month)
    else LastJob(events[..|events| - 1])
  }

  function FirstJob(events: seq<Event>): Option<Month> {
    if events == [] then None
    else
      var first := FirstJob(events[..|events| - 1]);
      if first.Some? then first
      else if events[|events| - 1].Job? then Some(events[|events| - 1].month) else None
  }

  /**
   Each job runs at most `lookahead` months after the one before it and finds no row of one of its months in
   the default partition.
   */
  ghost predicate OnSchedule(t: Table, events: seq<Event>, lookahead: nat)
    requires RealMonths(events)
  {
    events != [] ==>
      var init, last := events[..|events| - 1], events[|events| - 1];
      && OnSchedule(t, init, lookahead)
      && (last.Job? ==>
            && (LastJob(init).Some? ==>
                Index(LastJob(init).value) <= Index(last.month) <= Index(LastJob(init).value) + lookahead)
            && forall m :: IsMonth(m) && Upcoming(last.month, lookahead, m) ==>
                 !DefaultHasRowIn(Run(t, init, lookahead), RangeOf(m)))
  }

  /** Some job that ran before month `m` began left it with a partition. */
  ghost predicate PreparedInTime(t: Table, events: seq<Event>, lookahead: nat, m: Month)
    requires RealMonths(events) && IsMonth(m)
  {
    exists i :: 0 <= i < |events| && events[i].Job? && Index(events[i].month) < Index(m)
                && HasPartition(Run(t, events[..i + 1], lookahead), m)
  }

  /** The months that the last job is the first to reach: it leaves them with a partition. */
  lemma LastJobPrepares(t: Table, events: seq<Event>, lookahead: nat, m: Month)
    requires Tiled(t) && RealMonths(events) && OnSchedule(t, events, lookahead) && IsMonth(m)
    requires events != [] && events[|events| - 1].Job?
    requires Index(events[|events| - 1].month) < Index(m) <= Index(events[|events| - 1].month) + lookahead
    ensures PreparedInTime(t, events, lookahead, m)
  {
    var init, last := events[..|events| - 1], events[|events| - 1];
    assert last in events;
    RunKeeps(t, init, lookahead, m);
    JobIs(Run(t, init, lookahead), last.month, lookahead, m);
    assert events[..|events| - 1 + 1] == events;
    assert events[|events| - 1] == last;
  }

  lemma StaysPrepared(t: Table, events: seq<Event>, lookahead: nat, m: Month)
    requires Tiled(t) && RealMonths(events) && IsMonth(m) && events != []
    requires RealMonths(events[..|events| - 1]) && PreparedInTime(t, events[..|events| - 1], lookahead, m)
    ensures PreparedInTime(t, events, lookahead, m)
  {
    var init := events[..|events| - 1];
    var i :| 0 <= i < |init| && init[i].Job? && Index(init[i].month) < Index(m)
             && HasPartition(Run(t, init[..i + 1], lookahead), m);
    assert init[..i + 1] == events[..i + 1] && events[i] == init[i];
  }

  /**
   On schedule, every month after the first job's, up to `lookahead` after the last job's, is prepared before
   it begins.
   */
  lemma {:induction false} EveryMonthIsPrepared(t: Table, events: seq<Event>, lookahead: nat, m: Month)
    requires Tiled(t) && RealMonths(events) && OnSchedule(t, events, lookahead) && IsMonth(m)
    requires FirstJob(events).Some? && LastJob(events).Some?
    requires Index(FirstJob(events).value) < Index(m) <= Index(LastJob(events).value) + lookahead
    ensures PreparedInTime(t, events, lookahead, m)
  {
    var init, last := events[..|events| - 1], events[|events| - 1];
    JobsCome(init);
    if FirstJob(init).Some? && Index(m) <= Index(LastJob(init).value) + lookahead {
      EveryMonthIsPrepared(t, init, lookahead, m);
      StaysPrepared(t, events, lookahead, m);
    } else {
      LastJobPrepares(t, events, lookahead, m);
    }
  }

  lemma {:induction false} JobsCome(events: seq<Event>)
    ensures FirstJob(events).Some? <==> LastJob(events).Some?
  {
    if events != [] {
      JobsCome(events[..|events| - 1]);
    }
  }
}
