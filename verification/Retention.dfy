/**
 * Retention of the event store: whole monthly partitions are dropped once their named month has
 * ended before the cutoff, and the default partition is pruned row by row.
 */
module Retention {
  import opened Keyset
  import opened Options

  const MS_PER_DAY := 86_400_000

  // Calendar arithmetic of `Date.UTC`: proleptic Gregorian, months counted from 0.

  function YearStartDay(y: int): int {
    365 * y + (y - 1) / 4 - (y - 1) / 100 + (y - 1) / 400
  }

  predicate IsLeap(y: int) {
    y % 4 == 0 && (y % 100 != 0 || y % 400 == 0)
  }

  lemma EveryFourthYear(y: int)
    ensures y / 4 - (y - 1) / 4 == if y % 4 == 0 then 1 else 0
  {
  }

  lemma EveryHundredthYear(y: int)
    ensures y / 100 - (y - 1) / 100 == if y % 100 == 0 then 1 else 0
    ensures y % 100 == 0 ==> y % 4 == 0
  {
    assert y == 100 * (y / 100) + y % 100;
    assert y % 100 == 0 ==> y == 4 * (25 * (y / 100));
  }

  lemma EveryFourHundredthYear(y: int)
    ensures y / 400 - (y - 1) / 400 == if y % 400 == 0 then 1 else 0
    ensures y % 400 == 0 ==> y % 100 == 0
  {
    assert y == 400 * (y / 400) + y % 400;
    assert y % 400 == 0 ==> y == 100 * (4 * (y / 400));
  }

  lemma YearLength(y: int)
    ensures YearStartDay(y + 1) - YearStartDay(y) == if IsLeap(y) then 366 else 365
  {
    EveryFourthYear(y);
    EveryHundredthYear(y);
    EveryFourHundredthYear(y);
  }

  function DaysBeforeMonth(leap: bool, month: nat): int
    requires month < 12
  {
    (match month
     case 0 => 0 case 1 => 31 case 2 => 59 case 3 => 90 case 4 => 120 case 5 => 151
     case 6 => 181 case 7 => 212 case 8 => 243 case 9 => 273 case 10 => 304 case _ => 334)
    + (if leap && month >= 2 then 1 else 0)
  }

  /** Days from 1970-01-01 to the first day of month `i`, where `i` is twelve times the year plus the month. */
  function MonthStartDay(i: int): int {
    YearStartDay(i / 12) - YearStartDay(1970) + DaysBeforeMonth(IsLeap(i / 12), i % 12)
  }

  function MonthStartMs(i: int): int {
    MonthStartDay(i) * MS_PER_DAY
  }

  function MonthStart(i: int): int {
    MonthStartMs(i) * MICROS_PER_MS
  }

  /** December runs into January like any other month. */
  lemma MonthLength(i: int)
    ensures 28 <= MonthStartDay(i + 1) - MonthStartDay(i) <= 31
  {
    if i % 12 == 11 {
      YearLength(i / 12);
      assert (i + 1) / 12 == i / 12 + 1 && (i + 1) % 12 == 0;
    } else {
      assert (i + 1) / 12 == i / 12 && (i + 1) % 12 == i % 12 + 1;
    }
  }

  /** Every month has its days, February one more in a leap year. */
  lemma DaysOfMonths(i: int)
    ensures var days := MonthStartDay(i + 1) - MonthStartDay(i);
      && (i % 12 in {0, 2, 4, 6, 7, 9, 11} ==> days == 31)
      && (i % 12 in {3, 5, 8, 10} ==> days == 30)
      && (i % 12 == 1 ==> days == if IsLeap(i / 12) then 29 else 28)
  {
    if i % 12 == 11 {
      YearLength(i / 12);
      assert (i + 1) / 12 == i / 12 + 1 && (i + 1) % 12 == 0;
    } else {
      assert (i + 1) / 12 == i / 12 && (i + 1) % 12 == i % 12 + 1;
    }
  }

  lemma MarchStart(y: int)
    ensures MonthStartDay(y * 12 + 2) == YearStartDay(y) - YearStartDay(1970) + (if IsLeap(y) then 60 else 59)
  {
    assert (y * 12 + 2) / 12 == y && (y * 12 + 2) % 12 == 2;
  }

  lemma KnownYears()
    ensures YearStartDay(1900) == 693960 && YearStartDay(1970) == 719527 && YearStartDay(2000) == 730484
    ensures YearStartDay(2024) == 739250 && YearStartDay(2100) == 767009
    ensures !IsLeap(1900) && IsLeap(2000) && IsLeap(2024) && !IsLeap(2100)
  {
  }

  /** The epoch, and the first of March of 1900, 2000, 2024 and 2100. */
  lemma KnownDays()
    ensures MonthStartDay(23640) == 0
    ensures MonthStartDay(22802) == -25508 && MonthStartDay(24002) == 11017
    ensures MonthStartDay(24290) == 19783 && MonthStartDay(25202) == 47541
  {
    assert MonthStartDay(23640) == 0;
    hide YearStartDay, IsLeap;
    KnownYears();
    MarchStart(1900);
    MarchStart(2000);
    MarchStart(2024);
    MarchStart(2100);
    hide MonthStartDay;
  }

  lemma {:induction false} MonthsAreOrdered(i: int, j: int)
    requires i < j
    ensures MonthStart(i) < MonthStart(j)
    decreases j - i
  {
    hide MonthStartDay;
    MonthLength(j - 1);
    if i < j - 1 { MonthsAreOrdered(i, j - 1); }
  }

  /** `Date.UTC(year, month, 1)`: two-digit years are 1900-based and a month past December runs on. */
  function DateUtcMs(year: nat, month: nat): int {
    MonthStartMs((if year <= 99 then 1900 + year else year) * 12 + month)
  }

  // Partition names.

  const PREFIX := "events_y"
  const DEFAULT_PARTITION := "events_default"

  predicate IsDigit(c: char) { '0' <= c <= '9' }

  function Digit(c: char): nat
    requires IsDigit(c)
  {
    (c - '0') as nat
  }

  datatype NamedMonth = NamedMonth(year: nat, month: nat)

  /** `events_yYYYYmMM`, four and two decimal digits and nothing else. */
  function ParseName(name: string): Option<NamedMonth> {
    if |name| == 15 && name[..8] == PREFIX && name[12] == 'm'
       && IsDigit(name[8]) && IsDigit(name[9]) && IsDigit(name[10]) && IsDigit(name[11])
       && IsDigit(name[13]) && IsDigit(name[14])
    then Some(NamedMonth(1000 * Digit(name[8]) + 100 * Digit(name[9]) + 10 * Digit(name[10]) + Digit(name[11]),
                         10 * Digit(name[13]) + Digit(name[14])))
    else None
  }

  function DigitChar(d: nat): char
    requires d < 10
  {
    ('0' as int + d) as char
  }

  /** The name of a month's partition. */
  function PartitionName(m: NamedMonth): string
    requires m.year < 10000 && m.month < 100
  {
    PREFIX
    + [DigitChar(m.year / 1000), DigitChar(m.year / 100 % 10), DigitChar(m.year / 10 % 10), DigitChar(m.year % 10)]
    + ['m'] + [DigitChar(m.month / 10), DigitChar(m.month % 10)]
  }

  lemma TenTimes(q: nat, rest: nat)
    ensures rest < 10 ==> (10 * q + rest) / 10 == q && (10 * q + rest) % 10 == rest
    ensures rest < 100 ==> (100 * q + rest) / 100 == q
    ensures rest < 1000 ==> (1000 * q + rest) / 1000 == q
  {
  }

  lemma FourDigits(a: nat, b: nat, c: nat, d: nat)
    requires a < 10 && b < 10 && c < 10 && d < 10
    ensures var n := 1000 * a + 100 * b + 10 * c + d;
      n < 10000 && n / 1000 == a && n / 100 % 10 == b && n / 10 % 10 == c && n % 10 == d
  {
    TenTimes(a, 100 * b + 10 * c + d);
    TenTimes(10 * a + b, 10 * c + d);
    TenTimes(a, b);
    TenTimes(100 * a + 10 * b + c, d);
    TenTimes(10 * a + b, c);
  }

  lemma ReadNameIsPrinted(name: string, m: NamedMonth)
    requires ParseName(name) == Some(m)
    ensures m.year < 10000 && m.month < 100 && name == PartitionName(m)
  {
    FourDigits(Digit(name[8]), Digit(name[9]), Digit(name[10]), Digit(name[11]));
    FourDigits(0, 0, Digit(name[13]), Digit(name[14]));
    var year, month := [name[8], name[9], name[10], name[11]], [name[13], name[14]];
    assert name == name[..8] + year + ['m'] + month;
    assert name[..8] == PREFIX;
    hide ParseName;
    assert year == [DigitChar(m.year / 1000), DigitChar(m.year / 100 % 10), DigitChar(m.year / 10 % 10), DigitChar(m.year % 10)];
    assert month == [DigitChar(m.month / 10), DigitChar(m.month % 10)];
  }

  lemma DigitsMakeTheNumber(n: nat)
    requires n < 10000
    ensures n == 1000 * (n / 1000) + 100 * (n / 100 % 10) + 10 * (n / 10 % 10) + n % 10
  {
    assert n == 10 * (n / 10) + n % 10;
    assert n / 10 == 10 * (n / 100) + n / 10 % 10;
    assert n / 100 == 10 * (n / 1000) + n / 100 % 10;
  }

  lemma PrintedNameIsRead(m: NamedMonth)
    requires m.year < 10000 && m.month < 100
    ensures ParseName(PartitionName(m)) == Some(m)
  {
    DigitsMakeTheNumber(m.year);
    DigitsMakeTheNumber(m.month);
    var name := PartitionName(m);
    assert |PREFIX| == 8 && name[..8] == PREFIX;
    assert name[8] == DigitChar(m.year / 1000) && name[9] == DigitChar(m.year / 100 % 10);
    assert name[10] == DigitChar(m.year / 10 % 10) && name[11] == DigitChar(m.year % 10);
    assert name[12] == 'm' && name[13] == DigitChar(m.month / 10) && name[14] == DigitChar(m.month % 10);
    hide PartitionName;
  }

  /** A name stands for a month exactly when it is that month's name. */
  lemma NameIsReadIff(name: string, m: NamedMonth)
    requires m.year < 10000 && m.month < 100
    ensures ParseName(name) == Some(m) <==> name == PartitionName(m)
  {
    PrintedNameIsRead(m);
    if ParseName(name) == Some(m) { ReadNameIsPrinted(name, m); }
    hide ParseName, PartitionName;
  }

  /** Exclusive upper bound the service derives from the name, in milliseconds. */
  function PartitionEndsAtMs(name: string): Option<int> {
    match ParseName(name)
    case None => None
    case Some(m) => Some(DateUtcMs(m.year, m.month))
  }

  // The table.

  datatype Row = Row(id: nat, at: int)
  datatype Partition = Partition(name: string, rows: set<Row>)

  /** Twelve times the year plus the zero-based month that the name stands for. */
  function MonthIndex(m: NamedMonth): int {
    m.year * 12 + m.month - 1
  }

  predicate IsMonth(m: NamedMonth) {
    1 <= m.month <= 12
  }

  /** The month a name is taken for. */
  function TakenFor(m: NamedMonth): NamedMonth {
    if m.year <= 99 then NamedMonth(1900 + m.year, m.month) else m
  }

  /** The naming contract: each partition holds rows of exactly the month it is named after. */
  predicate NamedAfterContents(p: Partition) {
    p.name == DEFAULT_PARTITION
    || (var m := ParseName(p.name);
        && m.Some? && IsMonth(m.value)
        && forall r :: r in p.rows ==> MonthStart(MonthIndex(m.value)) <= r.at < MonthStart(MonthIndex(m.value) + 1))
  }

  predicate ContractHolds(partitions: seq<Partition>) {
    forall i :: 0 <= i < |partitions| ==> NamedAfterContents(partitions[i])
  }

  predicate Expired(name: string, beforeMs: int) {
    var end := PartitionEndsAtMs(name);
    end.Some? && end.value <= beforeMs
  }

  function Older(rows: set<Row>, before: int): set<Row> {
    set r | r in rows && r.at < before
  }

  function CountOlder(partitions: seq<Partition>, before: int): nat {
    if partitions == [] then 0
    else CountOlder(partitions[..|partitions| - 1], before) + |Older(partitions[|partitions| - 1].rows, before)|
  }

  function Total(partitions: seq<Partition>): nat {
    if partitions == [] then 0 else Total(partitions[..|partitions| - 1]) + |partitions[|partitions| - 1].rows|
  }

  /** What one partition looks like after a run, if anything is left of it. */
  function Kept(p: Partition, beforeMs: int): seq<Partition> {
    if Expired(p.name, beforeMs) then []
    else if p.name == DEFAULT_PARTITION then [p.(rows := p.rows - Older(p.rows, beforeMs * MICROS_PER_MS))]
    else [p]
  }

  function Pruned(partitions: seq<Partition>, beforeMs: int): seq<Partition> {
    if partitions == [] then []
    else Pruned(partitions[..|partitions| - 1], beforeMs) + Kept(partitions[|partitions| - 1], beforeMs)
  }

  function ExpiredNames(partitions: seq<Partition>, beforeMs: int): seq<string> {
    if partitions == [] then []
    else ExpiredNames(partitions[..|partitions| - 1], beforeMs)
         + (if Expired(partitions[|partitions| - 1].name, beforeMs) then [partitions[|partitions| - 1].name] else [])
  }

  function Without(partitions: seq<Partition>, names: seq<string>): seq<Partition> {
    if partitions == [] then []
    else
      var last := partitions[|partitions| - 1];
      Without(partitions[..|partitions| - 1], names) + (if last.name in names then [] else [last])
  }

  function DefaultPruned(partitions: seq<Partition>, before: int): seq<Partition> {
    if partitions == [] then []
    else
      var last := partitions[|partitions| - 1];
      DefaultPruned(partitions[..|partitions| - 1], before)
      + [if last.name == DEFAULT_PARTITION then last.(rows := last.rows - Older(last.rows, before)) else last]
  }

  lemma Snoc(s: seq<Partition>, p: Partition, names: seq<string>, before: int)
    ensures Without(s + [p], names) == if p.name in names then Without(s, names) else Without(s, names) + [p]
    ensures DefaultPruned(s + [p], before)
         == DefaultPruned(s, before) + [if p.name == DEFAULT_PARTITION then p.(rows := p.rows - Older(p.rows, before)) else p]
    ensures DefaultOlder(s + [p], before)
         == DefaultOlder(s, before) + (if p.name == DEFAULT_PARTITION then |Older(p.rows, before)| else 0)
  {
    assert (s + [p])[..|s|] == s;
  }

  lemma {:induction false} WithoutMore(partitions: seq<Partition>, names: seq<string>, name: string)
    ensures Without(Without(partitions, names), [name]) == Without(partitions, names + [name])
  {
    if partitions != [] {
      var init, last := partitions[..|partitions| - 1], partitions[|partitions| - 1];
      WithoutMore(init, names, name);
      assert partitions == init + [last];
      Snoc(init, last, names, 0);
      Snoc(init, last, names + [name], 0);
      Snoc(Without(init, names), last, [name], 0);
    }
  }

  lemma {:induction false} WithoutNothing(partitions: seq<Partition>)
    ensures Without(partitions, []) == partitions
  {
    if partitions != [] { WithoutNothing(partitions[..|partitions| - 1]); }
  }

  lemma {:induction false} ExpiredNamesAre(partitions: seq<Partition>, beforeMs: int)
    ensures forall n :: n in ExpiredNames(partitions, beforeMs)
                   <==> Expired(n, beforeMs) && exists i :: 0 <= i < |partitions| && partitions[i].name == n
  {
    if partitions != [] {
      var init, last := partitions[..|partitions| - 1], partitions[|partitions| - 1];
      ExpiredNamesAre(init, beforeMs);
      assert partitions == init + [last];
    }
  }

  lemma DefaultNeverExpires(beforeMs: int)
    ensures !Expired(DEFAULT_PARTITION, beforeMs)
  {
  }

  /** Dropping the expired tables and pruning the default one leaves the pruned table. */
  lemma {:induction false} DropThenDelete(partitions: seq<Partition>, names: seq<string>, beforeMs: int)
    requires forall i :: 0 <= i < |partitions| ==> (partitions[i].name in names <==> Expired(partitions[i].name, beforeMs))
    ensures DefaultPruned(Without(partitions, names), beforeMs * MICROS_PER_MS) == Pruned(partitions, beforeMs)
    ensures DefaultOlder(Without(partitions, names), beforeMs * MICROS_PER_MS) == DefaultOlder(partitions, beforeMs * MICROS_PER_MS)
  {
    hide MonthStartDay, Expired, Older;
    DefaultNeverExpires(beforeMs);
    if partitions != [] {
      var init, last := partitions[..|partitions| - 1], partitions[|partitions| - 1];
      DropThenDelete(init, names, beforeMs);
      assert partitions == init + [last];
      Snoc(init, last, names, beforeMs * MICROS_PER_MS);
      Snoc(Without(init, names), last, names, beforeMs * MICROS_PER_MS);
      if last.name !in names {
        assert Kept(last, beforeMs) == [if last.name == DEFAULT_PARTITION
                                        then last.(rows := last.rows - Older(last.rows, beforeMs * MICROS_PER_MS)) else last];
      }
    }
  }

  datatype Stats = Stats(eventsCandidates: nat, eventsDeleted: nat, eventsPartitionsDropped: seq<string>,
                         dlqCandidates: nat, dlqDeleted: nat)

  function CutoffMs(nowMs: int, days: int): int {
    nowMs - days * MS_PER_DAY
  }

  class EventsDb {
    /** In catalogue order, which is by name; names are distinct. */
    var partitions: seq<Partition>
    var dlq: set<Row>
    /** Statements that were not answered. */
    ghost var unanswered: nat

    constructor ()
      ensures partitions == [] && dlq == {} && unanswered == 0
    {
      partitions, dlq, unanswered := [], {}, 0;
    }

    predicate Valid() reads this {
      forall i, j :: 0 <= i < j < |partitions| ==> partitions[i].name != partitions[j].name
    }

    /** Counting a named partition. */
    function RowsOf(name: string): set<Row>
      reads this
    {
      set i, r | 0 <= i < |partitions| && partitions[i].name == name && r in partitions[i].rows :: r
    }

    method ExpiredEventPartitions(beforeMs: int) returns (names: seq<string>)
      ensures names == ExpiredNames(partitions, beforeMs)
    {
      names := [];
      for i := 0 to |partitions|
        invariant names == ExpiredNames(partitions[..i], beforeMs)
      {
        assert partitions[..i + 1][..i] == partitions[..i];
        var end := PartitionEndsAtMs(partitions[i].name);
        if end.Some? && end.value <= beforeMs {
          names := names + [partitions[i].name];
        }
      }
      assert partitions[..|partitions|] == partitions;
    }

    method CountRows(before: int) returns (count: nat)
      ensures count == CountOlder(partitions, before)
    {
      count := 0;
      for i := 0 to |partitions|
        invariant count == CountOlder(partitions[..i], before)
      {
        assert partitions[..i + 1][..i] == partitions[..i];
        count := count + |Older(partitions[i].rows, before)|;
      }
      assert partitions[..|partitions|] == partitions;
    }

    /** A statement that can fail before or after it took effect. */
    method Statement() returns (reached: bool, answered: bool)
      modifies this`unanswered
      ensures unanswered == old(unanswered) + if reached && answered then 0 else 1
    {
      reached, answered := *, *;
      if !reached || !answered { unanswered := unanswered + 1; }
    }

    method DropTable(name: string) returns (ok: bool)
      modifies this`partitions, this`unanswered
      ensures partitions == Without(old(partitions), [name]) || (!ok && partitions == old(partitions))
      ensures unanswered == old(unanswered) + if ok then 0 else 1
    {
      var reached, answered := Statement();
      if !reached { return false; }
      var kept: seq<Partition> := [];
      for i := 0 to |partitions|
        invariant partitions == old(partitions)
        invariant kept == Without(partitions[..i], [name])
      {
        assert partitions[..i + 1][..i] == partitions[..i];
        if partitions[i].name != name {
          kept := kept + [partitions[i]];
        }
      }
      assert partitions[..|partitions|] == partitions;
      partitions := kept;
      ok := answered;
    }

    /** DELETE FROM events_default; returns the number of rows deleted. */
    method DeleteFromDefault(before: int) returns (deleted: nat)
      modifies this`partitions
      ensures partitions == DefaultPruned(old(partitions), before)
      ensures deleted == DefaultOlder(old(partitions), before)
    {
      var kept: seq<Partition> := [];
      deleted := 0;
      for i := 0 to |partitions|
        invariant partitions == old(partitions)
        invariant kept == DefaultPruned(partitions[..i], before)
        invariant deleted == DefaultOlder(partitions[..i], before)
      {
        var p := partitions[i];
        assert partitions[..i + 1][..i] == partitions[..i];
        if p.name == DEFAULT_PARTITION {
          deleted := deleted + |Older(p.rows, before)|;
          kept := kept + [p.(rows := p.rows - Older(p.rows, before))];
        } else {
          kept := kept + [p];
        }
      }
      assert partitions[..|partitions|] == partitions;
      partitions := kept;
    }

    /** Adds up the rows of the doomed partitions before any of them is dropped. */
    method CountDoomed(names: seq<string>, beforeMs: int) returns (doomed: nat)
      requires Valid() && names == ExpiredNames(partitions, beforeMs)
      ensures doomed == ExpiredRows(partitions, beforeMs)
    {
      doomed := 0;
      for i := 0 to |names|
        invariant doomed == SumRows(names[..i])
      {
        assert names[..i + 1][..i] == names[..i];
        doomed := doomed + |RowsOf(names[i])|;
      }
      assert names[..|names|] == names;
      SumOfExpired(|partitions|, beforeMs);
      assert partitions[..|partitions|] == partitions;
    }

    function SumRows(names: seq<string>): nat
      reads this
    {
      if names == [] then 0 else SumRows(names[..|names| - 1]) + |RowsOf(names[|names| - 1])|
    }

    lemma {:induction false} SumOfExpired(n: nat, beforeMs: int)
      requires Valid() && n <= |partitions|
      ensures SumRows(ExpiredNames(partitions[..n], beforeMs)) == ExpiredRows(partitions[..n], beforeMs)
    {
      if n > 0 {
        SumOfExpired(n - 1, beforeMs);
        assert partitions[..n][..n - 1] == partitions[..n - 1];
        var before, name := ExpiredNames(partitions[..n - 1], beforeMs), partitions[n - 1].name;
        assert RowsOf(name) == partitions[n - 1].rows;
        assert (before + [name])[..|before|] == before;
        assert before + [] == before;
      }
    }

    /** Drops every doomed partition, then prunes the default one; each statement commits on its own. */
    method DropAndDelete(expired: seq<string>, beforeMs: int) returns (ok: bool, fromDefault: nat)
      requires expired == ExpiredNames(partitions, beforeMs)
      modifies this`partitions, this`unanswered
      ensures unanswered >= old(unanswered) && (ok <==> unanswered == old(unanswered))
      ensures ok ==> partitions == Pruned(old(partitions), beforeMs)
      ensures ok ==> fromDefault == DefaultOlder(old(partitions), beforeMs * MICROS_PER_MS)
      ensures IsPartOfRun(old(partitions), partitions, beforeMs)
    {
      fromDefault := 0;
      ghost var was := partitions;
      WithoutNothing(was);
      assert expired[..0] == [];
      for i := 0 to |expired|
        invariant partitions == Without(was, expired[..i]) && unanswered == old(unanswered)
      {
        WithoutMore(was, expired[..i], expired[i]);
        assert expired[..i] + [expired[i]] == expired[..i + 1];
        ok := DropTable(expired[i]);
        if !ok {
          assert IsAfterDrops(was, partitions, beforeMs, i) || IsAfterDrops(was, partitions, beforeMs, i + 1);
          return;
        }
      }
      assert expired[..|expired|] == expired;
      assert IsAfterDrops(was, partitions, beforeMs, |expired|);
      ExpiredNamesAre(was, beforeMs);
      DropThenDelete(was, expired, beforeMs);
      var reached, answered := Statement();
      ok := reached && answered;
      if reached { fromDefault := DeleteFromDefault(beforeMs * MICROS_PER_MS); }
    }

    /** Without `execute` only the report is made. A statement that fails ends the run where it is. */
    method RunRetention(nowMs: int, eventsDays: int, dlqDays: int, execute: bool) returns (ok: bool, stats: Stats)
      requires Valid()
      modifies this
      ensures unanswered >= old(unanswered) && (ok <==> unanswered == old(unanswered))
      ensures ok ==> stats.eventsCandidates == CountOlder(old(partitions), CutoffMs(nowMs, eventsDays) * MICROS_PER_MS)
      ensures ok ==> stats.eventsPartitionsDropped == ExpiredNames(old(partitions), CutoffMs(nowMs, eventsDays))
      ensures ok ==> stats.dlqCandidates == |Older(old(dlq), CutoffMs(nowMs, dlqDays) * MICROS_PER_MS)|
      ensures ok && execute ==> partitions == Pruned(old(partitions), CutoffMs(nowMs, eventsDays))
      ensures ok && execute ==> stats.eventsDeleted == Total(old(partitions)) - Total(partitions)
      ensures ok && execute ==> dlq == old(dlq) - Older(old(dlq), CutoffMs(nowMs, dlqDays) * MICROS_PER_MS)
      ensures ok && execute ==> dlq == (set r | r in old(dlq) && IsYoung(r, nowMs, dlqDays))
      ensures forall r :: r in old(dlq) && IsYoung(r, nowMs, dlqDays) ==> r in dlq
      ensures ok && execute ==> stats.dlqDeleted == |old(dlq)| - |dlq|
      ensures !execute ==> partitions == old(partitions) && dlq == old(dlq)
      ensures ok && !execute ==> stats.eventsDeleted == stats.dlqDeleted == 0
      ensures IsPartOfRun(old(partitions), partitions, CutoffMs(nowMs, eventsDays))
      ensures dlq != old(dlq) ==>
        && partitions == Pruned(old(partitions), CutoffMs(nowMs, eventsDays))
        && dlq == old(dlq) - Older(old(dlq), CutoffMs(nowMs, dlqDays) * MICROS_PER_MS)
    {
      var before, dlqBefore := CutoffMs(nowMs, eventsDays), CutoffMs(nowMs, dlqDays) * MICROS_PER_MS;
      NothingIsPartOfRun(partitions, before);
      YoungLettersStay(dlq, nowMs, dlqDays);
      stats := Stats(0, 0, [], 0, 0);
      var reached, answered := Statement();
      if !reached || !answered { return false, stats; }
      var candidates := CountRows(before * MICROS_PER_MS);
      var expiredDlq := Older(dlq, dlqBefore);
      var expired := ExpiredEventPartitions(before);
      stats := Stats(candidates, 0, expired, |expiredDlq|, 0);
      var droppedRows := CountDoomed(expired, before);
      if execute {
        DeletedIsDifference(partitions, before);
        var fromDefault;
        ok, fromDefault := DropAndDelete(expired, before);
        if !ok { return; }
        assert |dlq - expiredDlq| == |dlq| - |expiredDlq|;
        reached, answered := Statement();
        if reached { dlq := dlq - expiredDlq; }
        if !reached || !answered { return false, stats; }
        stats := stats.(eventsDeleted := droppedRows + fromDefault, dlqDeleted := |expiredDlq|);
      }
      ok := true;
    }
  }

  /** Where a run can stop: after any number of its drops, or with all of them and the default partition pruned. */
  ghost predicate IsPartOfRun(before: seq<Partition>, after: seq<Partition>, beforeMs: int) {
    || after == Pruned(before, beforeMs)
    || exists n :: IsAfterDrops(before, after, beforeMs, n)
  }

  predicate IsAfterDrops(before: seq<Partition>, after: seq<Partition>, beforeMs: int, n: nat) {
    n <= |ExpiredNames(before, beforeMs)| && after == Without(before, ExpiredNames(before, beforeMs)[..n])
  }

  lemma NothingIsPartOfRun(partitions: seq<Partition>, beforeMs: int)
    ensures IsPartOfRun(partitions, partitions, beforeMs)
  {
    WithoutNothing(partitions);
    assert ExpiredNames(partitions, beforeMs)[..0] == [];
    assert IsAfterDrops(partitions, partitions, beforeMs, 0);
  }

  /** Dropping expired partitions first changes nothing about what a whole run leaves. */
  lemma {:induction false} DropsAreAbsorbed(partitions: seq<Partition>, names: seq<string>, beforeMs: int)
    requires forall n :: n in names ==> Expired(n, beforeMs)
    ensures Pruned(Without(partitions, names), beforeMs) == Pruned(partitions, beforeMs)
  {
    hide Expired;
    if partitions != [] {
      var init, last := partitions[..|partitions| - 1], partitions[|partitions| - 1];
      DropsAreAbsorbed(init, names, beforeMs);
      if last.name !in names {
        assert (Without(init, names) + [last])[..|Without(init, names)|] == Without(init, names);
      } else {
        assert Without(partitions, names) == Without(init, names) + [] == Without(init, names);
        assert Expired(last.name, beforeMs) && Kept(last, beforeMs) == [];
        assert Pruned(init, beforeMs) + [] == Pruned(init, beforeMs);
      }
    }
  }

  lemma {:induction false} LaterPruningAbsorbs(partitions: seq<Partition>, beforeMs: int, laterMs: int)
    requires beforeMs <= laterMs
    ensures Pruned(Pruned(partitions, beforeMs), laterMs) == Pruned(partitions, laterMs)
  {
    hide Expired;
    if partitions != [] {
      var init, last := partitions[..|partitions| - 1], partitions[|partitions| - 1];
      LaterPruningAbsorbs(init, beforeMs, laterMs);
      PrunedSum(Pruned(init, beforeMs), Kept(last, beforeMs), laterMs);
      KeptLater(last, beforeMs, laterMs);
    }
  }

  lemma PrunedSum(a: seq<Partition>, b: seq<Partition>, beforeMs: int)
    requires |b| <= 1
    ensures Pruned(a + b, beforeMs) == Pruned(a, beforeMs) + Pruned(b, beforeMs)
  {
    hide Kept;
    if b == [] {
      assert a + b == a;
    } else {
      assert (a + b)[..|a|] == a && b[..0] == [];
    }
  }

  lemma ExpiredLater(name: string, beforeMs: int, laterMs: int)
    requires beforeMs <= laterMs && Expired(name, beforeMs)
    ensures Expired(name, laterMs)
  {
  }

  lemma OlderLater(rows: set<Row>, before: int, later: int)
    requires before <= later
    ensures (rows - Older(rows, before)) - Older(rows - Older(rows, before), later) == rows - Older(rows, later)
  {
  }

  lemma KeptLater(p: Partition, beforeMs: int, laterMs: int)
    requires beforeMs <= laterMs
    ensures Pruned(Kept(p, beforeMs), laterMs) == Kept(p, laterMs)
  {
    if Expired(p.name, beforeMs) { ExpiredLater(p.name, beforeMs, laterMs); }
    hide Expired;
    OlderLater(p.rows, beforeMs * MICROS_PER_MS, laterMs * MICROS_PER_MS);
    var kept := Kept(p, beforeMs);
    if kept != [] {
      assert kept[..0] == [];
      assert Pruned(kept, laterMs) == [] + Kept(kept[0], laterMs);
    }
  }

  /** Whatever a run that stopped has left undone is done by the next one, whose cutoff is no earlier. */
  lemma StoppedRunIsResumed(before: seq<Partition>, after: seq<Partition>, beforeMs: int, laterMs: int)
    requires IsPartOfRun(before, after, beforeMs) && beforeMs <= laterMs
    ensures Pruned(after, laterMs) == Pruned(before, laterMs)
  {
    if after == Pruned(before, beforeMs) {
      LaterPruningAbsorbs(before, beforeMs, laterMs);
    } else {
      var n: nat :| IsAfterDrops(before, after, beforeMs, n);
      ExpiredNamesAre(before, beforeMs);
      var names := ExpiredNames(before, beforeMs)[..n];
      forall name | name in names ensures Expired(name, laterMs) {
        ExpiredLater(name, beforeMs, laterMs);
      }
      hide Expired;
      DropsAreAbsorbed(before, names, laterMs);
    }
  }

  lemma {:induction false} WithoutKeeps(partitions: seq<Partition>, names: seq<string>, p: Partition)
    ensures p in Without(partitions, names) <==> p in partitions && p.name !in names
  {
    if partitions != [] {
      WithoutKeeps(partitions[..|partitions| - 1], names, p);
      assert partitions == partitions[..|partitions| - 1] + [partitions[|partitions| - 1]];
    }
  }

  /** Wherever a run stops, no row at or after the cutoff is gone. */
  lemma StoppedRunIsSafe(before: seq<Partition>, after: seq<Partition>, beforeMs: int, p: Partition, r: Row)
    requires ContractHolds(before) && IsPartOfRun(before, after, beforeMs)
    requires p in before && r in p.rows && r.at >= beforeMs * MICROS_PER_MS
    ensures exists q :: q in after && q.name == p.name && r in q.rows
  {
    if after == Pruned(before, beforeMs) {
      RetentionIsSafeAndThorough(before, beforeMs);
    } else {
      var n: nat :| IsAfterDrops(before, after, beforeMs, n);
      ExpiredNamesAre(before, beforeMs);
      var names := ExpiredNames(before, beforeMs)[..n];
      WithoutKeeps(before, names, p);
      var i :| 0 <= i < |before| && before[i] == p;
      assert NamedAfterContents(p);
      KeptRowsAreKept(p, beforeMs, r);
    }
  }

  /** How many rows of the default partition are past the cutoff. */
  function DefaultOlder(partitions: seq<Partition>, before: int): nat {
    if partitions == [] then 0
    else
      var last := partitions[|partitions| - 1];
      DefaultOlder(partitions[..|partitions| - 1], before)
      + (if last.name == DEFAULT_PARTITION then |Older(last.rows, before)| else 0)
  }

  function ExpiredRows(partitions: seq<Partition>, beforeMs: int): nat {
    if partitions == [] then 0
    else
      var last := partitions[|partitions| - 1];
      ExpiredRows(partitions[..|partitions| - 1], beforeMs) + (if Expired(last.name, beforeMs) then |last.rows| else 0)
  }

  lemma {:induction false} TotalOfSum(a: seq<Partition>, b: seq<Partition>)
    ensures Total(a + b) == Total(a) + Total(b)
  {
    if b == [] {
      assert a + b == a;
    } else {
      TotalOfSum(a, b[..|b| - 1]);
      assert (a + b)[..|a + b| - 1] == a + b[..|b| - 1];
    }
  }

  /** The number reported as deleted is the number of rows that are gone. */
  lemma {:induction false} DeletedIsDifference(partitions: seq<Partition>, beforeMs: int)
    ensures Total(Pruned(partitions, beforeMs)) + ExpiredRows(partitions, beforeMs)
            + DefaultOlder(partitions, beforeMs * MICROS_PER_MS) == Total(partitions)
  {
    if partitions != [] {
      var init, last := partitions[..|partitions| - 1], partitions[|partitions| - 1];
      DeletedIsDifference(init, beforeMs);
      TotalOfSum(Pruned(init, beforeMs), Kept(last, beforeMs));
      var old' := Older(last.rows, beforeMs * MICROS_PER_MS);
      assert |last.rows - old'| == |last.rows| - |old'|;
      assert Total(Kept(last, beforeMs)) == if Kept(last, beforeMs) == [] then 0 else |Kept(last, beforeMs)[0].rows| by {
        if Kept(last, beforeMs) != [] { assert Kept(last, beforeMs)[..0] == []; }
      }
    }
  }

  // A run by the age of rows.

  /** The row is no older than so many days of 24 hours. */
  predicate IsYoung(r: Row, nowMs: int, days: int) {
    nowMs * 1000 - r.at <= days * 24 * 60 * 60 * 1_000_000
  }

  lemma CutoffParts(r: Row, nowMs: int, days: int)
    ensures IsYoung(r, nowMs, days) <==> r.at >= CutoffMs(nowMs, days) * MICROS_PER_MS
  {
  }

  /** Wherever a run stops, every event row no older than the retention days is still there. */
  lemma YoungRowsStay(before: seq<Partition>, after: seq<Partition>, nowMs: int, days: int, p: Partition, r: Row)
    requires ContractHolds(before) && IsPartOfRun(before, after, CutoffMs(nowMs, days))
    requires p in before && r in p.rows && IsYoung(r, nowMs, days)
    ensures exists q :: q in after && q.name == p.name && r in q.rows
  {
    CutoffParts(r, nowMs, days);
    hide CutoffMs;
    StoppedRunIsSafe(before, after, CutoffMs(nowMs, days), p, r);
  }

  /**
   * After a whole run, an older row is in no default partition, and from the year 100 on only in the month of the
   * instant that many days ago.
   */
  lemma OldRowsGo(partitions: seq<Partition>, nowMs: int, days: int, q: Partition, r: Row)
    requires ContractHolds(partitions) && q in Pruned(partitions, CutoffMs(nowMs, days))
    requires r in q.rows && !IsYoung(r, nowMs, days)
    ensures q.name != DEFAULT_PARTITION && ParseName(q.name).Some?
    ensures var m := ParseName(q.name).value;
      m.year >= 100 ==> IsCutoffMonth(MonthIndex(m), (nowMs - days * 24 * 60 * 60 * 1000) * 1000)
  {
    CutoffParts(r, nowMs, days);
    var before := CutoffMs(nowMs, days);
    assert before == nowMs - days * 24 * 60 * 60 * 1000;
    hide CutoffMs, MonthStart, Pruned, ContractHolds;
    RetentionIsSafeAndThorough(partitions, before);
    assert Overstays(q, before, r);
  }

  /** Of the dead letters exactly the young ones stay. */
  lemma YoungLettersStay(dlq: set<Row>, nowMs: int, days: int)
    ensures dlq - Older(dlq, CutoffMs(nowMs, days) * MICROS_PER_MS) == set r | r in dlq && IsYoung(r, nowMs, days)
  {
    forall r | r in dlq ensures IsYoung(r, nowMs, days) <==> r.at >= CutoffMs(nowMs, days) * MICROS_PER_MS {
      CutoffParts(r, nowMs, days);
    }
  }

  // What a run means for the rows.

  /** The calendar month the cutoff falls in. */
  predicate IsCutoffMonth(i: int, before: int) {
    MonthStart(i) <= before < MonthStart(i + 1)
  }

  lemma EndOfTakenMonth(m: NamedMonth)
    ensures DateUtcMs(m.year, m.month) == MonthStartMs(MonthIndex(TakenFor(m)) + 1)
    ensures MonthIndex(m) <= MonthIndex(TakenFor(m))
  {
  }

  /** The bound read from a name is the end of the month it names if and only if the year is at least 100. */
  lemma BoundIsEndOfMonthIff(name: string)
    requires ParseName(name).Some? && IsMonth(ParseName(name).value)
    ensures PartitionEndsAtMs(name) == Some(MonthStartMs(MonthIndex(ParseName(name).value) + 1)) <==>
      ParseName(name).value.year >= 100
  {
    hide MonthStartDay;
    var m := ParseName(name).value;
    if m.year <= 99 { MonthsAreOrdered(MonthIndex(m) + 1, MonthIndex(TakenFor(m)) + 1); }
  }

  /** For every cutoff a partition expires exactly when its month has ended, if and only if its year is not below 100. */
  lemma ExpiryIsEndOfMonthIff(name: string)
    requires ParseName(name).Some? && IsMonth(ParseName(name).value)
    ensures (forall beforeMs :: Expired(name, beforeMs) <==> MonthStartMs(MonthIndex(ParseName(name).value) + 1) <= beforeMs)
       <==> ParseName(name).value.year >= 100
  {
    BoundIsEndOfMonthIff(name);
    var end := MonthStartMs(MonthIndex(ParseName(name).value) + 1);
    hide MonthStartMs, ParseName;
    if forall beforeMs :: Expired(name, beforeMs) <==> end <= beforeMs {
      assert Expired(name, end) && !Expired(name, end - 1);
    }
  }

  /** A year below 100 is taken for one of the 1900s, so its partition outstays its month. */
  lemma YearBelow100Outstays(name: string, beforeMs: int)
    requires ParseName(name).Some? && Expired(name, beforeMs)
    ensures MonthStart(MonthIndex(ParseName(name).value) + 1) <= beforeMs * MICROS_PER_MS
  {
    hide MonthStartDay;
    var m := ParseName(name).value;
    EndOfTakenMonth(m);
    if m.year <= 99 { MonthsAreOrdered(MonthIndex(m) + 1, MonthIndex(TakenFor(m)) + 1); }
  }

  /** No row at or after the cutoff is lost, whatever the year. */
  lemma KeptRowsAreKept(p: Partition, beforeMs: int, r: Row)
    requires NamedAfterContents(p) && r in p.rows && r.at >= beforeMs * MICROS_PER_MS
    ensures |Kept(p, beforeMs)| == 1 && Kept(p, beforeMs)[0].name == p.name && r in Kept(p, beforeMs)[0].rows
  {
    hide MonthStartDay;
    if p.name != DEFAULT_PARTITION && Expired(p.name, beforeMs) {
      YearBelow100Outstays(p.name, beforeMs);
    }
  }

  /**
   * A row past the cutoff survives exactly when it sits outside the default partition and the month its partition's
   * name is taken for has not ended; from the year 100 on, that is the month the cutoff falls in.
   */
  lemma OldRowSurvivesOnlyInCutoffMonth(p: Partition, beforeMs: int, r: Row)
    requires NamedAfterContents(p) && r in p.rows && r.at < beforeMs * MICROS_PER_MS
    ensures (Kept(p, beforeMs) != [] && r in Kept(p, beforeMs)[0].rows) <==>
      && p.name != DEFAULT_PARTITION
      && beforeMs * MICROS_PER_MS < MonthStart(MonthIndex(TakenFor(ParseName(p.name).value)) + 1)
    ensures p.name != DEFAULT_PARTITION && ParseName(p.name).value.year >= 100 ==>
      ((Kept(p, beforeMs) != [] && r in Kept(p, beforeMs)[0].rows) <==>
        IsCutoffMonth(MonthIndex(ParseName(p.name).value), beforeMs * MICROS_PER_MS))
  {
    hide MonthStartDay;
    if p.name != DEFAULT_PARTITION {
      EndOfTakenMonth(ParseName(p.name).value);
    }
  }

  /** So an old row overstays by less than thirty-one days. */
  lemma OverstayIsUnderAMonth(i: int, before: int, at: int)
    requires IsCutoffMonth(i, before) && MonthStart(i) <= at < before
    ensures before - at < 31 * MS_PER_DAY * MICROS_PER_MS
  {
    hide MonthStartDay;
    MonthLength(i);
  }

  lemma CutoffMonthIsUnique(i: int, j: int, before: int)
    requires IsCutoffMonth(i, before) && IsCutoffMonth(j, before)
    ensures i == j
  {
    hide MonthStartDay;
    if i + 1 < j { MonthsAreOrdered(i + 1, j); }
    if j + 1 < i { MonthsAreOrdered(j + 1, i); }
  }

  lemma KeptOldRow(p: Partition, beforeMs: int, q: Partition, r: Row)
    requires NamedAfterContents(p) && q in Kept(p, beforeMs) && r in q.rows && r.at < beforeMs * MICROS_PER_MS
    ensures Overstays(q, beforeMs, r)
  {
    hide MonthStart;
    OldRowSurvivesOnlyInCutoffMonth(p, beforeMs, r);
    if ParseName(q.name).value.year >= 100 {
      OverstayIsUnderAMonth(MonthIndex(ParseName(q.name).value), beforeMs * MICROS_PER_MS, r.at);
    }
  }

  /** The row is past the cutoff but still there: its month is the cutoff's, or its year is below 100. */
  ghost predicate Overstays(q: Partition, beforeMs: int, r: Row) {
    var m := ParseName(q.name);
    && m.Some?
    && (m.value.year >= 100 ==>
          && IsCutoffMonth(MonthIndex(m.value), beforeMs * MICROS_PER_MS)
          && beforeMs * MICROS_PER_MS - r.at < 31 * MS_PER_DAY * MICROS_PER_MS)
  }

  /** What a run leaves undeleted among the candidates: the old rows of the cutoff month's own partition. */
  function StayingCandidates(partitions: seq<Partition>, beforeMs: int): nat {
    if partitions == [] then 0
    else
      var last := partitions[|partitions| - 1];
      StayingCandidates(partitions[..|partitions| - 1], beforeMs)
      + (if last.name != DEFAULT_PARTITION && !Expired(last.name, beforeMs) then |Older(last.rows, beforeMs * MICROS_PER_MS)| else 0)
  }

  /** Rows deleted and candidates that stay add up to the candidates, so never more go than were counted. */
  lemma {:induction false} DeletedNeverExceedsCandidates(partitions: seq<Partition>, beforeMs: int)
    requires ContractHolds(partitions)
    ensures Total(partitions) - Total(Pruned(partitions, beforeMs)) + StayingCandidates(partitions, beforeMs)
         == CountOlder(partitions, beforeMs * MICROS_PER_MS)
    ensures Total(partitions) - Total(Pruned(partitions, beforeMs)) <= CountOlder(partitions, beforeMs * MICROS_PER_MS)
  {
    DeletedIsDifference(partitions, beforeMs);
    if partitions != [] {
      var init, last := partitions[..|partitions| - 1], partitions[|partitions| - 1];
      DeletedNeverExceedsCandidates(init, beforeMs);
      DeletedIsDifference(init, beforeMs);
      assert NamedAfterContents(last);
      if Expired(last.name, beforeMs) { ExpiredRowsAreOld(last, beforeMs); }
    }
  }

  lemma ExpiredRowsAreOld(p: Partition, beforeMs: int)
    requires NamedAfterContents(p) && Expired(p.name, beforeMs)
    ensures p.name != DEFAULT_PARTITION && Older(p.rows, beforeMs * MICROS_PER_MS) == p.rows
  {
    hide MonthStartDay;
    YearBelow100Outstays(p.name, beforeMs);
  }

  /**
   * The whole table: rows at or after the cutoff stay put, and older rows stay only in the one month of the cutoff, by
   * under thirty-one days, unless their year is below 100.
   */
  lemma {:induction false} RetentionIsSafeAndThorough(partitions: seq<Partition>, beforeMs: int)
    requires ContractHolds(partitions)
    ensures forall p, r :: p in partitions && r in p.rows && r.at >= beforeMs * MICROS_PER_MS ==>
              exists q :: q in Pruned(partitions, beforeMs) && q.name == p.name && r in q.rows
    ensures forall q, r :: q in Pruned(partitions, beforeMs) && r in q.rows && r.at < beforeMs * MICROS_PER_MS ==>
              Overstays(q, beforeMs, r)
    ensures forall q :: q in Pruned(partitions, beforeMs) ==> exists p :: p in partitions && p.name == q.name && q.rows <= p.rows
  {
    hide Expired, Older, ParseName, NamedAfterContents, Overstays;
    if partitions != [] {
      var init, last := partitions[..|partitions| - 1], partitions[|partitions| - 1];
      RetentionIsSafeAndThorough(init, beforeMs);
      assert NamedAfterContents(last) && partitions == init + [last];
      var kept := Kept(last, beforeMs);
      forall r | r in last.rows && r.at >= beforeMs * MICROS_PER_MS
        ensures exists q :: q in Pruned(partitions, beforeMs) && q.name == last.name && r in q.rows
      {
        KeptRowsAreKept(last, beforeMs, r);
        assert kept[0] in Pruned(partitions, beforeMs);
      }
      forall q, r | q in kept && r in q.rows && r.at < beforeMs * MICROS_PER_MS ensures Overstays(q, beforeMs, r) {
        KeptOldRow(last, beforeMs, q, r);
      }
    }
  }

  /** So the rows a run leaves past the cutoff, from the year 100 on, are all of one month. */
  lemma OldRowsAreOfOneMonth(partitions: seq<Partition>, beforeMs: int, p: Partition, r: Row, q: Partition, s: Row)
    requires ContractHolds(partitions) && p in Pruned(partitions, beforeMs) && q in Pruned(partitions, beforeMs)
    requires r in p.rows && s in q.rows && r.at < beforeMs * MICROS_PER_MS && s.at < beforeMs * MICROS_PER_MS
    ensures ParseName(p.name).Some? && ParseName(q.name).Some?
    ensures ParseName(p.name).value.year >= 100 && ParseName(q.name).value.year >= 100 ==>
      MonthIndex(ParseName(p.name).value) == MonthIndex(ParseName(q.name).value)
  {
    hide Pruned, ContractHolds, MonthStart, ParseName;
    RetentionIsSafeAndThorough(partitions, beforeMs);
    assert Overstays(p, beforeMs, r) && Overstays(q, beforeMs, s);
    var m, n := ParseName(p.name), ParseName(q.name);
    if m.value.year >= 100 && n.value.year >= 100 {
      CutoffMonthIsUnique(MonthIndex(m.value), MonthIndex(n.value), beforeMs * MICROS_PER_MS);
    }
  }

  /** The first month of the year 50 is taken for one of the 1900s and so outstays its month. */
  lemma TwoDigitYearIsTakenForThe1900s()
    ensures PartitionEndsAtMs("events_y0050m01") == Some(MonthStartMs(1950 * 12 + 1))
    ensures ParseName("events_y0050m01") == Some(NamedMonth(50, 1))
    ensures MonthStartMs(50 * 12 + 1) < MonthStartMs(1950 * 12 + 1)
  {
    hide MonthStartDay;
    var name := "events_y0050m01";
    assert name[..8] == PREFIX;
    MonthsAreOrdered(50 * 12 + 1, 1950 * 12 + 1);
  }
}
