/**
 Consecutive periods of a plan tile time: whatever is credited in the span of its closes is
 assessed in exactly one of them. And catching up after downtime ends.
 */
module PeriodTiling {
  import opened Options
  import opened Calendar
  import opened FeePeriods

  const FOUR_WEEKS_MS: int := 28 * DAY_MS

  // ── Windows that meet ──────────────────────────────────────────────────────

  /** Windows that meet share nothing and leave nothing out. */
  lemma {:induction false} WindowsMeet(payments: seq<Payment>, organization: Id, a: int, b: int, c: int, part: Part)
    requires a <= b <= c
    ensures Sum(payments, organization, Window(a, b), part) + Sum(payments, organization, Window(b, c), part)
         == Sum(payments, organization, Window(a, c), part)
  {
    if payments != [] { WindowsMeet(payments[..|payments| - 1], organization, a, b, c, part); }
  }

  /** Each window ends where the next one starts. */
  ghost predicate Linked(windows: seq<Window>) {
    && (forall i :: 0 <= i < |windows| ==> windows[i].from <= windows[i].to)
    && (forall i :: 0 < i < |windows| ==> windows[i - 1].to == windows[i].from)
  }

  function SumOver(payments: seq<Payment>, organization: Id, windows: seq<Window>, part: Part): nat {
    if windows == [] then 0
    else
      var n := |windows| - 1;
      SumOver(payments, organization, windows[..n], part) + Sum(payments, organization, windows[n], part)
  }

  lemma {:induction false} InOrder(windows: seq<Window>, i: nat, j: nat)
    requires Linked(windows) && i < j < |windows|
    ensures windows[i].to <= windows[j].from
  {
    if i < j - 1 { InOrder(windows, i, j - 1); }
  }

  lemma {:induction false} LinkedWindowsTile(payments: seq<Payment>, organization: Id, windows: seq<Window>, part: Part)
    requires Linked(windows) && windows != []
    ensures SumOver(payments, organization, windows, part)
         == Sum(payments, organization, Window(windows[0].from, windows[|windows| - 1].to), part)
  {
    var n := |windows| - 1;
    if n == 0 {
      assert SumOver(payments, organization, windows[..n], part) == 0;
    } else {
      LinkedWindowsTile(payments, organization, windows[..n], part);
      if n > 1 { InOrder(windows, 0, n - 1); }
      WindowsMeet(payments, organization, windows[0].from, windows[n].from, windows[n].to, part);
    }
  }

  lemma {:induction false} SomeWindow(windows: seq<Window>, t: int) returns (i: nat)
    requires Linked(windows) && windows != [] && windows[0].from <= t < windows[|windows| - 1].to
    ensures i < |windows| && windows[i].from <= t < windows[i].to
  {
    var n := |windows| - 1;
    if n == 0 || windows[n].from <= t { i := n; } else { i := SomeWindow(windows[..n], t); }
  }

  /** An instant in the span of linked windows is in exactly one of them. */
  lemma ExactlyOneWindow(windows: seq<Window>, t: int) returns (i: nat)
    requires Linked(windows) && windows != [] && windows[0].from <= t < windows[|windows| - 1].to
    ensures i < |windows|
    ensures forall j :: 0 <= j < |windows| ==> (windows[j].from <= t < windows[j].to <==> j == i)
  {
    i := SomeWindow(windows, t);
    forall j | 0 <= j < |windows| && j != i ensures !(windows[j].from <= t < windows[j].to) {
      if i < j { InOrder(windows, i, j); } else { InOrder(windows, j, i); }
    }
  }

  // ── Consecutive closes of a plan ───────────────────────────────────────────

  /** The windows a plan is assessed over in so many closes, one after the other. */
  function WindowsOf(payments: seq<Payment>, plan: FeePlan, months: int, n: nat): (windows: seq<Window>)
    requires plan.end.Some?
    ensures |windows| == n && (n > 0 ==> windows[0] == ClosingWindow(plan, months))
    decreases n
  {
    if n == 0 then []
      else [ClosingWindow(plan, months)] + WindowsOf(payments, Close(payments, plan, months), months, n - 1)
  }

  lemma LinkedFirst(w: Window, rest: seq<Window>)
    requires w.from <= w.to && Linked(rest) && (rest != [] ==> w.to == rest[0].from)
    ensures Linked([w] + rest)
  {}

  /** The windows of consecutive closes, from the plan's first on. */
  lemma {:induction false} WindowsAreLinked(payments: seq<Payment>, plan: FeePlan, months: int, windows: seq<Window>)
    requires WellDated(plan) && plan.end.Some? && months >= 1
    requires windows == WindowsOf(payments, plan, months, |windows|)
    ensures Linked(windows)
    decreases |windows|
  {
    if windows != [] {
      var next, rest := Close(payments, plan, months), windows[1..];
      CloseKeepsDates(payments, plan, months);
      assert rest == WindowsOf(payments, next, months, |rest|);
      WindowsAreLinked(payments, next, months, rest);
      assert windows == [ClosingWindow(plan, months)] + rest;
      LinkedFirst(ClosingWindow(plan, months), rest);
    }
  }

  /** The volumes of consecutive closes sum to the volume of the whole half-open span. */
  lemma PeriodsTile(payments: seq<Payment>, plan: FeePlan, months: int, n: nat, part: Part)
    requires WellDated(plan) && plan.end.Some? && months >= 1 && n >= 1
    ensures var windows := WindowsOf(payments, plan, months, n);
            SumOver(payments, plan.organization, windows, part)
              == Sum(payments, plan.organization, Window(windows[0].from, windows[n - 1].to), part)
  {
    WindowsAreLinked(payments, plan, months, WindowsOf(payments, plan, months, n));
    LinkedWindowsTile(payments, plan.organization, WindowsOf(payments, plan, months, n), part);
  }

  /** And each payment of the span is assessed in exactly one of the closes. */
  lemma EachPaymentAssessedOnce(payments: seq<Payment>, plan: FeePlan, months: int, n: nat, p: Payment) returns (i: nat)
    requires WellDated(plan) && plan.end.Some? && months >= 1 && n >= 1
    requires var windows := WindowsOf(payments, plan, months, n);
             Assessed(p, plan.organization, Window(windows[0].from, windows[n - 1].to))
    ensures i < n
    ensures forall j :: 0 <= j < n ==>
           (Assessed(p, plan.organization, WindowsOf(payments, plan, months, n)[j]) <==> j == i)
  {
    WindowsAreLinked(payments, plan, months, WindowsOf(payments, plan, months, n));
    i := ExactlyOneWindow(WindowsOf(payments, plan, months, n), p.creditedAt);
  }

  // ── Catching up ────────────────────────────────────────────────────────────

  /** The plans after so many calls at one moment. */
  function Repeat(payments: seq<Payment>, plans: map<Id, FeePlan>, months: int, now: int, n: nat): map<Id, FeePlan> {
    if n == 0 then plans else CloseAll(payments, Repeat(payments, plans, months, now, n - 1), months, now)
  }

  ghost predicate NoneEnded(plans: map<Id, FeePlan>, now: int) {
    forall id :: id in plans ==> !Ended(plans[id], now)
  }

  /** No plan is as many as n times four weeks behind. */
  ghost predicate Behind(plans: map<Id, FeePlan>, now: int, n: nat) {
    forall id :: id in plans ==>
      WellDated(plans[id]) && (plans[id].end.Some? ==> now < plans[id].end.value.Instant() + n * FOUR_WEEKS_MS)
  }

  lemma CloseAllCatchesUp(payments: seq<Payment>, plans: map<Id, FeePlan>, months: int, now: int, n: nat)
    requires months >= 1 && n >= 1 && Behind(plans, now, n)
    ensures Behind(CloseAll(payments, plans, months, now), now, n - 1)
  {
    forall id | id in plans && Ended(plans[id], now)
      ensures WellDated(Close(payments, plans[id], months))
      ensures now < Close(payments, plans[id], months).end.value.Instant() + (n - 1) * FOUR_WEEKS_MS
    {
      CloseKeepsDates(payments, plans[id], months);
    }
    assert (n - 1) * FOUR_WEEKS_MS >= 0;
  }

  lemma {:induction false} RepeatShift(payments: seq<Payment>, plans: map<Id, FeePlan>, months: int, now: int, n: nat)
    requires n > 0
    ensures Repeat(payments, plans, months, now, n)
         == Repeat(payments, CloseAll(payments, plans, months, now), months, now, n - 1)
  {
    if n > 1 { RepeatShift(payments, plans, months, now, n - 1); }
  }

  /** There is nothing to close, and closing changes nothing. */
  ghost predicate Settled(payments: seq<Payment>, plans: map<Id, FeePlan>, months: int, now: int) {
    NoneEnded(plans, now) && CloseAll(payments, plans, months, now) == plans
  }

  lemma NotBehind(payments: seq<Payment>, plans: map<Id, FeePlan>, months: int, now: int, n: nat)
    requires n == 0 && Behind(plans, now, n)
    ensures Settled(payments, Repeat(payments, plans, months, now, n), months, now)
  {}

  /** Calls at one moment, one for every four weeks the slowest plan is behind, leave nothing to close. */
  lemma {:induction false} CatchUpTerminates(payments: seq<Payment>, plans: map<Id, FeePlan>, months: int, now: int,
      n: nat)
    requires months >= 1 && Behind(plans, now, n)
    ensures Settled(payments, Repeat(payments, plans, months, now, n), months, now)
    decreases n
  {
    if n == 0 {
      NotBehind(payments, plans, months, now, n);
    } else {
      CloseAllCatchesUp(payments, plans, months, now, n);
      CatchUpTerminates(payments, CloseAll(payments, plans, months, now), months, now, n - 1);
      RepeatShift(payments, plans, months, now, n);
    }
  }

  /** How far a plan's end is behind a moment. */
  function Lag(plan: FeePlan, now: int): nat {
    if plan.end.Some? && plan.end.value.Instant() <= now then now - plan.end.value.Instant() + 1 else 0
  }

  lemma {:induction false} MostBehind(plans: map<Id, FeePlan>, ids: set<Id>, now: int) returns (n: nat)
    requires ids <= plans.Keys
    ensures forall id :: id in ids ==> Lag(plans[id], now) <= n
    decreases |ids|
  {
    if ids == {} {
      n := 0;
    } else {
      var id :| id in ids;
      n := MostBehind(plans, ids - {id}, now);
      if n < Lag(plans[id], now) { n := Lag(plans[id], now); }
    }
  }

  lemma EnoughCalls(plans: map<Id, FeePlan>, now: int) returns (n: nat)
    requires forall id :: id in plans ==> WellDated(plans[id])
    ensures Behind(plans, now, n)
  {
    n := MostBehind(plans, plans.Keys, now);
    forall id | id in plans && plans[id].end.Some?
      ensures now < plans[id].end.value.Instant() + n * FOUR_WEEKS_MS
    {
      assert Lag(plans[id], now) <= n <= n * FOUR_WEEKS_MS;
    }
  }

  /** Whatever the plans, enough calls leave nothing to close. */
  lemma EveryPlanCatchesUp(payments: seq<Payment>, plans: map<Id, FeePlan>, months: int, now: int)
    requires months >= 1 && forall id :: id in plans ==> WellDated(plans[id])
    ensures exists n: nat :: Settled(payments, Repeat(payments, plans, months, now, n), months, now)
  {
    var n := EnoughCalls(plans, now);
    CatchUpTerminates(payments, plans, months, now, n);
  }

  /** Every plan whose period has ended is in the next one. */
  ghost predicate OnePeriodBehind(plans: map<Id, FeePlan>, months: int, now: int) {
    forall id :: id in plans && Ended(plans[id], now) ==> AddMonths(plans[id].end.value, months).Instant() > now
  }

  /** A second call at the same moment does nothing exactly when no plan was two periods behind. */
  lemma SecondCallDoesNothing(payments: seq<Payment>, plans: map<Id, FeePlan>, months: int, now: int)
    requires months >= 1 && forall id :: id in plans ==> WellDated(plans[id])
    ensures var once := CloseAll(payments, plans, months, now);
            CloseAll(payments, once, months, now) == once <==> OnePeriodBehind(plans, months, now)
  {
    var once := CloseAll(payments, plans, months, now);
    var twice := CloseAll(payments, once, months, now);
    forall id | id in plans ensures WellDated(once[id]) {
      if Ended(plans[id], now) { CloseKeepsDates(payments, plans[id], months); }
    }
    forall id | id in plans && Ended(once[id], now) ensures twice[id] != once[id] {
      CloseKeepsDates(payments, once[id], months);
    }
    forall id | id in plans ensures twice[id] == once[id] <==> !Ended(once[id], now) {}
  }

  /** A plan two months behind is closed by the second call at the same moment as well. */
  lemma SecondCallCanMatter() returns (plans: map<Id, FeePlan>, now: int)
    ensures forall id :: id in plans ==> WellDated(plans[id])
    ensures CloseAll([], CloseAll([], plans, 1, now), 1, now) != CloseAll([], plans, 1, now)
  {
    var end := Date(0, 1, 0);
    plans := map["merchant" := FeePlan("merchant", 50, true, None, Some(end))];
    now := AddMonths(end, 1).Instant();
    SecondCallDoesNothing([], plans, 1, now);
    assert Ended(plans["merchant"], now) by { AddMonthsMovesForward(end, 1); }
    assert !OnePeriodBehind(plans, 1, now);
  }
}
