/**
 Calendar months in UTC, and `addMonths` of apps/api/src/domain/fee-plan-service.ts: whole
 months added to an instant, with the day of the month clamped.
 */
module Calendar {
  import opened Division

  const DAY_MS: int := 24 * 60 * 60 * 1000

  function MonthOf(month: int): (m: nat)
    ensures m < 12
  {
    month % 12
  }

  predicate IsLeap(year: int) {
    year % 4 == 0 && (year % 100 != 0 || year % 400 == 0)
  }

  /** The days of a month, counted in months from January of year 0. */
  function MonthLength(month: int): (days: int)
    ensures 28 <= days <= 31
  {
    if MonthOf(month) == 1 then (if IsLeap(month / 12) then 29 else 28)
    else if MonthOf(month) in {3, 5, 8, 10} then 30 else 31
  }

  /** The day a month begins on, counted from the first day of year 0. */
  function Start(month: int): int
    decreases if month < 0 then -month else month
  {
    if month == 0 then 0
    else if month > 0 then Start(month - 1) + MonthLength(month - 1)
    else Start(month + 1) - MonthLength(month)
  }

  lemma StartNext(month: int)
    ensures Start(month + 1) == Start(month) + MonthLength(month)
  {}

  // ── The calendar is the Gregorian one ──────────────────────────────────────

  function YearLength(year: int): int {
    if IsLeap(year) then 366 else 365
  }

  function Days(leap: bool, k: nat): int {
    if k == 1 then (if leap then 29 else 28) else if k in {3, 5, 8, 10} then 30 else 31
  }

  /** The days of the first k months of a year. */
  function DaysOfMonths(leap: bool, k: nat): int {
    if k == 0 then 0 else DaysOfMonths(leap, k - 1) + Days(leap, k - 1)
  }

  lemma MonthInYear(year: int, k: nat, month: int)
    requires k < 12 && month == 12 * year + k
    ensures MonthOf(month) == k && month / 12 == year
  {}

  lemma {:induction false} MonthStarts(year: int, k: nat)
    requires k <= 12
    ensures Start(12 * year + k) == Start(12 * year) + DaysOfMonths(IsLeap(year), k)
  {
    if k > 0 {
      MonthStarts(year, k - 1);
      StartNext(12 * year + k - 1);
      MonthInYear(year, k - 1, 12 * year + k - 1);
    }
  }

  lemma TwelveMonths(leap: bool)
    ensures DaysOfMonths(leap, 12) == if leap then 366 else 365
  {
    var l := if leap then 1 else 0;
    assert DaysOfMonths(leap, 0) == 0;
    assert DaysOfMonths(leap, 1) == 31;
    assert DaysOfMonths(leap, 2) == 59 + l;
    assert DaysOfMonths(leap, 3) == 90 + l;
    assert DaysOfMonths(leap, 4) == 120 + l;
    assert DaysOfMonths(leap, 5) == 151 + l;
    assert DaysOfMonths(leap, 6) == 181 + l;
    assert DaysOfMonths(leap, 7) == 212 + l;
    assert DaysOfMonths(leap, 8) == 243 + l;
    assert DaysOfMonths(leap, 9) == 273 + l;
    assert DaysOfMonths(leap, 10) == 304 + l;
    assert DaysOfMonths(leap, 11) == 334 + l;
  }

  /** Multiples of m below a number. */
  function Multiples(m: nat, below: nat): int
    requires m > 0
  {
    if below == 0 then 0 else Multiples(m, below - 1) + if (below - 1) % m == 0 then 1 else 0
  }

  /**
   The days before a year from year 0: one more for every fourth year, but for centuries, but
   for every fourth of those.
   */
  function DaysBefore(year: nat): int {
    365 * year + Multiples(4, year) - Multiples(100, year) + Multiples(400, year)
  }

  lemma Divisors(year: int)
    ensures year % 400 == 0 ==> year % 100 == 0
    ensures year % 100 == 0 ==> year % 4 == 0
  {}

  lemma NextYear(year: nat)
    ensures DaysBefore(year + 1) == DaysBefore(year) + YearLength(year)
  {
    Divisors(year);
  }

  /** Years begin where that count says. */
  lemma {:induction false} YearStarts(year: nat)
    ensures Start(12 * year) == DaysBefore(year)
  {
    if year > 0 {
      YearStarts(year - 1);
      MonthStarts(year - 1, 12);
      TwelveMonths(IsLeap(year - 1));
      NextYear(year - 1);
    }
  }

  // ── Dates ──────────────────────────────────────────────────────────────────

  /** A date as the calendar writes it. */
  datatype Date = Date(month: int, day: int, ms: int) {
    predicate Valid() {
      1 <= day <= MonthLength(month) && 0 <= ms < DAY_MS
    }

    /** The instant it names. */
    function Instant(): int {
      (Start(month) + day - 1) * DAY_MS + ms
    }
  }

  lemma MonthDays(year: int, m: nat, month: int)
    requires m < 12 && month == 12 * year + m
    ensures var leap := year % 4 == 0 && (year % 100 != 0 || year % 400 == 0);
            MonthLength(month) == if m == 1 then (if leap then 29 else 28) else if m in {3, 5, 8, 10} then 30 else 31
  {
    MonthInYear(year, m, month);
  }

  lemma InMilliseconds(from: int, days: int, day: int, ms: int)
    ensures (from + days + 1 - 1) * DAY_MS - (from + 1 - 1) * DAY_MS == 86_400_000 * days
    ensures (from + day - 1) * DAY_MS + ms - (from + 1 - 1) * DAY_MS == 86_400_000 * (day - 1) + ms
  {}

  /** A month is as long as the calendar says, and within it an instant is its days and its time of day. */
  lemma MonthAndDay(year: int, m: nat, month: int, day: int, ms: int)
    requires m < 12 && month == 12 * year + m
    ensures var leap := year % 4 == 0 && (year % 100 != 0 || year % 400 == 0);
            var days := if m == 1 then (if leap then 29 else 28) else if m in {3, 5, 8, 10} then 30 else 31;
            Date(month + 1, 1, 0).Instant() - Date(month, 1, 0).Instant() == 86_400_000 * days
    ensures Date(month, day, ms).Instant() - Date(month, 1, 0).Instant() == 86_400_000 * (day - 1) + ms
  {
    StartNext(month);
    MonthDays(year, m, month);
    InMilliseconds(Start(month), MonthLength(month), day, ms);
  }

  lemma {:induction false} MultiplesAre(m: nat, below: nat)
    requires m > 0
    ensures Multiples(m, below) == (below + m - 1) / m
  {
    if below == 0 {
      DivisionIsUnique(m - 1, m, 0, m - 1);
    } else {
      MultiplesAre(m, below - 1);
      OneMultipleMore(m, below - 1);
    }
  }

  lemma OneMultipleMore(m: nat, n: nat)
    requires m > 0
    ensures (n + m) / m == (n + m - 1) / m + if n % m == 0 then 1 else 0
  {
    var q, r := n / m, n % m;
    QuotientOf(n, m);
    assert m * (q + 1) == m * q + m;
    DivisionIsUnique(n + m, m, q + 1, r);
    if r == 0 { DivisionIsUnique(n + m - 1, m, q, m - 1); } else { DivisionIsUnique(n + m - 1, m, q + 1, r - 1); }
  }

  /** The instant a year begins, counted from the beginning of year 0. */
  lemma NewYear(year: nat)
    ensures Date(12 * year, 1, 0).Instant()
         == 86_400_000 * (365 * year + (year + 3) / 4 - (year + 99) / 100 + (year + 399) / 400)
  {
    YearStarts(year);
    MultiplesAre(4, year);
    MultiplesAre(100, year);
    MultiplesAre(400, year);
  }

  lemma {:induction false} MonthsApart(month: int, n: nat)
    ensures Start(month) + 28 * n <= Start(month + n) <= Start(month) + 31 * n
  {
    if n > 0 {
      MonthsApart(month, n - 1);
      StartNext(month + n - 1);
    }
  }

  lemma DayCarries(a: int, b: int, ms: int, ms': int)
    requires a < b && 0 <= ms < DAY_MS && 0 <= ms' < DAY_MS
    ensures a * DAY_MS + ms < b * DAY_MS + ms'
  {}

  lemma EarlierMonth(a: Date, b: Date)
    requires a.Valid() && b.Valid() && a.month < b.month
    ensures a.Instant() < b.Instant()
  {
    MonthsApart(a.month + 1, b.month - a.month - 1);
    StartNext(a.month);
    DayCarries(Start(a.month) + a.day - 1, Start(b.month) + b.day - 1, a.ms, b.ms);
  }

  lemma EarlierDay(a: Date, b: Date)
    requires a.Valid() && b.Valid() && a.month == b.month && a.day < b.day
    ensures a.Instant() < b.Instant()
  {
    DayCarries(Start(a.month) + a.day - 1, Start(b.month) + b.day - 1, a.ms, b.ms);
  }

  /** The order of the calendar: month, day, time of day. */
  predicate Before(a: Date, b: Date) {
    a.month < b.month || (a.month == b.month && (a.day < b.day || (a.day == b.day && a.ms < b.ms)))
  }

  /** Dates are ordered as their instants are; so an instant has one date. */
  lemma EarlierDate(a: Date, b: Date)
    requires a.Valid() && b.Valid()
    ensures Before(a, b) <==> a.Instant() < b.Instant()
  {
    if a.month < b.month {
      EarlierMonth(a, b);
    } else if b.month < a.month {
      EarlierMonth(b, a);
    } else if a.day < b.day {
      EarlierDay(a, b);
    } else if b.day < a.day {
      EarlierDay(b, a);
    }
  }

  // ── Adding months ──────────────────────────────────────────────────────────

  function Lesser(a: int, b: int): int { if a < b then a else b }

  /** The same day and time so many months on, or the last day of that month if it is shorter. */
  function AddMonths(from: Date, months: int): Date {
    Date(from.month + months, Lesser(from.day, MonthLength(from.month + months)), from.ms)
  }

  /** A date that its setters change, rolling over when a day is not in the month. */
  class UtcDate {
    var date: Date

    constructor (from: Date)
      ensures date == from
    {
      date := from;
    }

    method SetDay(day: int)
      requires 1 <= day <= MonthLength(date.month)
      modifies this
      ensures date == old(date).(day := day)
    {
      date := date.(day := day);
    }

    /** Setting the month alone carries the days that do not fit into the next one. */
    method SetMonth(month: int)
      requires date.Valid()
      modifies this
      ensures date.Valid() && date.ms == old(date).ms
      ensures date.Instant() == (Start(month) + old(date).day - 1) * DAY_MS + old(date).ms
      ensures date.month == month <==> old(date).day <= MonthLength(month)
    {
      StartNext(month);
      if date.day <= MonthLength(month) {
        date := date.(month := month);
      } else {
        date := Date(month + 1, date.day - MonthLength(month), date.ms);
      }
    }
  }

  /** The day goes to the first before the month is moved, so that nothing rolls over. */
  method MovedByMonths(from: Date, months: int) returns (to: Date)
    requires from.Valid()
    ensures to == AddMonths(from, months) && to.Valid()
  {
    var out := new UtcDate(from);
    var day := out.date.day;
    out.SetDay(1);
    out.SetMonth(out.date.month + months);
    assert out.date.day == 1 by { OneStartsItsMonth(out.date, from.month + months); }
    var lastDay := MonthLength(out.date.month);
    out.SetDay(if day < lastDay then day else lastDay);
    to := out.date;
  }

  /** A date in the month whose first day it names is that first day. */
  lemma OneStartsItsMonth(date: Date, month: int)
    requires date.Valid() && date.month == month && date.Instant() == Start(month) * DAY_MS + date.ms
    ensures date.day == 1
  {}

  lemma DaysForward(from: Date, months: nat)
    requires from.Valid() && months >= 1
    ensures Start(from.month + months) + AddMonths(from, months).day >= Start(from.month) + from.day + 28
    ensures months == 1 ==>
           Start(from.month + months) + AddMonths(from, months).day <= Start(from.month) + from.day + 31
  {
    StartNext(from.month);
    MonthsApart(from.month + 1, months - 1);
  }

  lemma InDays(from: Date, to: Date, days: int)
    requires to.ms == from.ms
    ensures Start(to.month) + to.day >= Start(from.month) + from.day + days ==>
           to.Instant() >= from.Instant() + days * DAY_MS
    ensures Start(to.month) + to.day <= Start(from.month) + from.day + days ==>
           to.Instant() <= from.Instant() + days * DAY_MS
  {}

  /** Months added are at least 28 days later, and one month at most 31. */
  lemma AddMonthsMovesForward(from: Date, months: nat)
    requires from.Valid() && months >= 1
    ensures AddMonths(from, months).Valid()
    ensures AddMonths(from, months).Instant() >= from.Instant() + 28 * DAY_MS
    ensures months == 1 ==> AddMonths(from, months).Instant() <= from.Instant() + 31 * DAY_MS
  {
    DaysForward(from, months);
    InDays(from, AddMonths(from, months), 28);
    InDays(from, AddMonths(from, months), 31);
  }

  /**
   Adding months in two steps is adding them at once exactly when the first step does not clamp
   further than the second.
   */
  lemma StepsDrift(from: Date, a: int, b: int)
    requires from.Valid()
    ensures AddMonths(AddMonths(from, a), b) == AddMonths(from, a + b)
       <==> MonthLength(from.month + a) >= Lesser(from.day, MonthLength(from.month + a + b))
  {}

  /** Were the day not set to the first, a month from the 31st would roll over a month that has none. */
  lemma PlainMonthRollsOver(from: Date)
    requires from.Valid() && from.day > MonthLength(from.month + 1)
    ensures AddMonths(from, 1).month == from.month + 1
    ensures var rolled := Date(from.month + 2, from.day - MonthLength(from.month + 1), from.ms);
            rolled.Valid() && rolled.Instant() == (Start(from.month + 1) + from.day - 1) * DAY_MS + from.ms
  {
    StartNext(from.month + 1);
  }
}
