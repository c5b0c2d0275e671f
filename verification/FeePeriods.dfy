/**
 Volume periods: what a merchant processed in a window, and `closePeriods` of
 apps/api/src/domain/fee-plan-service.ts, which closes the periods that have ended and moves
 each merchant to the tier the volume earned.
 */
module FeePeriods {
  import opened Options
  import opened Calendar
  import opened Commission
  import opened FeePlans
  import opened SetSizes

  type Id = string

  /** Where a payment's dollar value came from; `Unset` is a row that says nothing of it. */
  datatype ValueSource = Quote | Oracle | MerchantRate | SelfReported | Unknown | Unset

  datatype Payment = Payment(
    organization: Id, live: bool, reversed: bool, creditedAt: int, source: ValueSource, valueUsdMicros: Option<nat>)

  /** The instants from one to another, the latter not included. */
  datatype Window = Window(from: int, to: int)

  datatype Volume = Volume(verified: nat, declared: nat, unpriced: nat) {
    function Total(): nat { verified + declared }
  }

  /** What a volume is split into, by how far the figure is trusted. */
  datatype Part = Verified | Declared | Unpriced

  // ── Volume ─────────────────────────────────────────────────────────────────

  predicate Assessed(p: Payment, organization: Id, w: Window) {
    p.organization == organization && p.live && !p.reversed && w.from <= p.creditedAt < w.to
  }

  function PartOf(source: ValueSource): Part {
    match source
    case Quote => Verified
    case Oracle => Verified
    case MerchantRate => Declared
    case SelfReported => Unpriced
    case Unknown => Unpriced
    case Unset => Unpriced
  }

  function ValueOf(p: Payment): nat {
    if p.valueUsdMicros.Some? then p.valueUsdMicros.value else 0
  }

  /** What one payment adds to a part: its value, or itself when it has none to trust. */
  function Contribution(p: Payment, part: Part): nat {
    if PartOf(p.source) != part then 0 else if part == Unpriced then 1 else ValueOf(p)
  }

  function Sum(payments: seq<Payment>, organization: Id, w: Window, part: Part): nat {
    if payments == [] then 0
    else
      var n := |payments| - 1;
      Sum(payments[..n], organization, w, part)
      + if Assessed(payments[n], organization, w) then Contribution(payments[n], part) else 0
  }

  function VolumeIn(payments: seq<Payment>, organization: Id, w: Window): Volume {
    Volume(Sum(payments, organization, w, Verified), Sum(payments, organization, w, Declared),
      Sum(payments, organization, w, Unpriced))
  }

  /** The assessed payments of one source: what they are worth together, and how many they are. */
  datatype Group = Group(source: ValueSource, total: nat, rows: nat)

  function GroupOf(payments: seq<Payment>, organization: Id, w: Window, source: ValueSource): Group {
    if payments == [] then Group(source, 0, 0)
    else
      var n := |payments| - 1;
      var rest := GroupOf(payments[..n], organization, w, source);
      if Assessed(payments[n], organization, w) && payments[n].source == source then
        Group(source, rest.total + ValueOf(payments[n]), rest.rows + 1)
      else rest
  }

  lemma {:induction false} VolumeByGroups(payments: seq<Payment>, organization: Id, w: Window)
    ensures var v := VolumeIn(payments, organization, w);
            && v.verified ==
                 GroupOf(payments, organization, w, Quote).total + GroupOf(payments, organization, w, Oracle).total
            && v.declared == GroupOf(payments, organization, w, MerchantRate).total
            && v.unpriced == GroupOf(payments, organization, w, SelfReported).rows
                           + GroupOf(payments, organization, w, Unknown).rows
                           + GroupOf(payments, organization, w, Unset).rows
  {
    if payments != [] { VolumeByGroups(payments[..|payments| - 1], organization, w); }
  }

  /** What a payment would add to the dollar volume if what merchants report of themselves counted. */
  function WorthReported(p: Payment): nat {
    match p.source
    case Unknown => 0
    case Unset => 0
    case _ => ValueOf(p)
  }

  /** The dollar volume if it did. */
  function WithReported(payments: seq<Payment>, organization: Id, w: Window): nat {
    if payments == [] then 0
    else
      var n := |payments| - 1;
      WithReported(payments[..n], organization, w)
      + if Assessed(payments[n], organization, w) then WorthReported(payments[n]) else 0
  }

  lemma {:induction false} ReportedByGroup(payments: seq<Payment>, organization: Id, w: Window)
    ensures WithReported(payments, organization, w)
         == Sum(payments, organization, w, Verified) + Sum(payments, organization, w, Declared)
          + GroupOf(payments, organization, w, SelfReported).total
  {
    if payments != [] {
      var rest, last := payments[..|payments| - 1], payments[|payments| - 1];
      ReportedByGroup(rest, organization, w);
      WorthByPart(last);
    }
  }

  lemma WorthByPart(p: Payment)
    ensures WorthReported(p) == Contribution(p, Verified) + Contribution(p, Declared)
                              + if p.source == SelfReported then ValueOf(p) else 0
  {}

  /** Counting it as well would change the volume exactly when there is some. */
  lemma ReportedGoesUncounted(payments: seq<Payment>, organization: Id, w: Window)
    ensures VolumeIn(payments, organization, w).Total() == WithReported(payments, organization, w)
       <==> GroupOf(payments, organization, w, SelfReported).total == 0
  {
    ReportedByGroup(payments, organization, w);
  }

  lemma {:induction false} EmptyGroup(payments: seq<Payment>, organization: Id, w: Window, source: ValueSource)
    ensures var g := GroupOf(payments, organization, w, source); g.source == source && (g.rows == 0 ==> g.total == 0)
  {
    if payments != [] { EmptyGroup(payments[..|payments| - 1], organization, w, source); }
  }

  /** The volume of a window, summed by source and then split by how far each source is trusted. */
  method AssessedVolume(payments: seq<Payment>, organization: Id, w: Window) returns (volume: Volume)
    ensures volume == VolumeIn(payments, organization, w)
  {
    var sources := [Quote, Oracle, MerchantRate, SelfReported, Unknown, Unset];
    var verified, declared, unpriced: nat := 0, 0, 0;
    VolumeByGroups(payments, organization, w);
    for i := 0 to |sources|
      invariant verified == (if i > 0 then GroupOf(payments, organization, w, Quote).total else 0)
                          + (if i > 1 then GroupOf(payments, organization, w, Oracle).total else 0)
      invariant declared == if i > 2 then GroupOf(payments, organization, w, MerchantRate).total else 0
      invariant unpriced == (if i > 3 then GroupOf(payments, organization, w, SelfReported).rows else 0)
                          + (if i > 4 then GroupOf(payments, organization, w, Unknown).rows else 0)
                          + (if i > 5 then GroupOf(payments, organization, w, Unset).rows else 0)
    {
      var row := GroupOf(payments, organization, w, sources[i]);
      EmptyGroup(payments, organization, w, sources[i]);
      if row.rows > 0 {
        if row.source == Quote || row.source == Oracle {
          verified := verified + row.total;
        } else if row.source == MerchantRate {
          declared := declared + row.total;
        } else {
          unpriced := unpriced + row.rows;
        }
      }
    }
    volume := Volume(verified, declared, unpriced);
  }

  /** What counts as volume: live payments that stand, credited from the window's start until before its end. */
  lemma AssessedIs(p: Payment, organization: Id, w: Window)
    ensures Assessed(p, organization, w) <==>
              p.organization == organization && p.live && !p.reversed && p.creditedAt >= w.from && p.creditedAt < w.to
  {}

  /** A payment more adds its worth to the part its source belongs to, or one to the unpriced ones. */
  lemma OneMorePayment(payments: seq<Payment>, p: Payment, organization: Id, w: Window)
    ensures var before, after := VolumeIn(payments, organization, w), VolumeIn(payments + [p], organization, w);
            var worth := if p.valueUsdMicros.Some? then p.valueUsdMicros.value else 0;
            var counts := p.organization == organization && p.live && !p.reversed && w.from <= p.creditedAt < w.to;
            && after.verified == before.verified + (if counts && p.source in {Quote, Oracle} then worth else 0)
            && after.declared == before.declared + (if counts && p.source == MerchantRate then worth else 0)
            && after.unpriced == before.unpriced
                 + (if counts && p.source in {SelfReported, Unknown, Unset} then 1 else 0)
            && after.Total() == after.verified + after.declared
    ensures VolumeIn([], organization, w) == Volume(0, 0, 0)
  {
    assert (payments + [p])[..|payments|] == payments;
  }

  // ── Closing a period ───────────────────────────────────────────────────────

  datatype FeePlan = FeePlan(organization: Id, feeBps: nat, negotiated: bool, start: Option<Date>, end: Option<Date>)

  predicate Ended(plan: FeePlan, now: int) {
    plan.end.Some? && plan.end.value.Instant() <= now
  }

  /** The period a close assesses: up to the plan's end, from its start or a period before the end. */
  function ClosingWindow(plan: FeePlan, months: int): Window
    requires plan.end.Some?
  {
    var start := if plan.start.Some? then plan.start.value else AddMonths(plan.end.value, -months);
    Window(start.Instant(), plan.end.value.Instant())
  }

  function Earned(payments: seq<Payment>, plan: FeePlan, months: int): nat
    requires plan.end.Some?
  {
    if plan.negotiated then plan.feeBps
    else FeeBpsForVolume(VolumeIn(payments, plan.organization, ClosingWindow(plan, months)).Total())
  }

  function Close(payments: seq<Payment>, plan: FeePlan, months: int): FeePlan
    requires plan.end.Some?
  {
    plan.(feeBps := Earned(payments, plan, months), start := plan.end, end := Some(AddMonths(plan.end.value, months)))
  }

  function CloseAll(payments: seq<Payment>, plans: map<Id, FeePlan>, months: int, now: int): map<Id, FeePlan> {
    map id | id in plans :: if Ended(plans[id], now) then Close(payments, plans[id], months) else plans[id]
  }

  datatype Change = Change(organization: Id, fromBps: nat, toBps: nat, volumeUsdMicros: nat)

  function ChangeOf(payments: seq<Payment>, plan: FeePlan, months: int): Change
    requires plan.end.Some?
  {
    Change(plan.organization, plan.feeBps, Earned(payments, plan, months),
           VolumeIn(payments, plan.organization, ClosingWindow(plan, months)).Total())
  }

  /** The close changes the plan's rate. */
  predicate Moved(payments: seq<Payment>, plan: FeePlan, months: int)
    requires plan.end.Some?
  {
    Earned(payments, plan, months) != plan.feeBps
  }

  /** A plan whose period has ended, and whose rate the close changes. */
  predicate Moves(payments: seq<Payment>, plan: FeePlan, months: int, now: int) {
    Ended(plan, now) && Moved(payments, plan, months)
  }

  function EndedPlans(plans: map<Id, FeePlan>, now: int): set<Id> {
    set id | id in plans && Ended(plans[id], now)
  }

  function MovedPlans(payments: seq<Payment>, plans: map<Id, FeePlan>, months: int, now: int): set<Id> {
    set id | id in plans && Moves(payments, plans[id], months, now)
  }

  /** The plans named whose rate a close changes. */
  function MovedAmong(payments: seq<Payment>, plans: map<Id, FeePlan>, months: int, ids: seq<Id>): set<Id> {
    set id | id in ids && id in plans && plans[id].end.Some? && Moved(payments, plans[id], months)
  }

  /** No two of the changes are of one plan. */
  predicate OfDistinctPlans(changes: seq<Change>) {
    forall i, j :: 0 <= i < j < |changes| ==> changes[i].organization != changes[j].organization
  }

  datatype FeePlanError = NotFound | FeeOutOfRange

  class FeePlanService {
    var plans: map<Id, FeePlan>
    const periodMonths: int

    ghost predicate Valid()
      reads this
    {
      periodMonths >= 1 && forall id :: id in plans ==> Sound(id, plans[id])
    }

    constructor (periodMonths: int)
      requires periodMonths >= 1
      ensures Valid() && plans == map[] && this.periodMonths == periodMonths
    {
      this.periodMonths := periodMonths;
      plans := map[];
    }

    /** A merchant's plan: the one there is, or a new one at the entry rate whose period starts now. */
    method EnsureForOrganization(organization: Id, now: Date) returns (plan: FeePlan)
      requires Valid() && now.Valid()
      modifies `plans
      ensures Valid() && organization in plans && plan == plans[organization]
      ensures organization in old(plans) ==> plans == old(plans)
      ensures organization !in old(plans) ==> plans == old(plans)[organization := plan]
      ensures organization !in old(plans) ==> plan.feeBps == FeeBpsForVolume(0) == 50 && !plan.negotiated
      ensures organization !in old(plans) ==> plan.start == Some(now) && plan.end == Some(AddMonths(now, periodMonths))
    {
      if organization in plans { return plans[organization]; }
      var end := MovedByMonths(now, periodMonths);
      AddMonthsMovesForward(now, periodMonths);
      Ladder(0);
      plan := FeePlan(organization, DEFAULT_FEE_BPS, false, Some(now), Some(end));
      plans := plans[organization := plan];
    }

    /** A rate set by hand, off the ladder from then on. */
    method SetFeeBps(organization: Id, feeBps: int) returns (error: Option<FeePlanError>)
      requires Valid()
      modifies `plans
      ensures Valid()
      ensures error == if feeBps < 0 || feeBps > 500 then Some(FeeOutOfRange)
                       else if organization !in old(plans) then Some(NotFound) else None
      ensures error.Some? ==> plans == old(plans)
      ensures error.None? ==>
             plans == old(plans)[organization := old(plans)[organization].(feeBps := feeBps, negotiated := true)]
    {
      if feeBps < 0 || feeBps > MAX_FEE_BPS { return Some(FeeOutOfRange); }
      if organization !in plans { return Some(NotFound); }
      plans := plans[organization := plans[organization].(feeBps := feeBps, negotiated := true)];
      error := None;
    }

    /** The plans whose period has ended, in whatever order they come. */
    method EndingPlans(now: int) returns (ending: seq<Id>)
      ensures forall id :: id in ending <==> id in plans && Ended(plans[id], now)
      ensures forall i, j :: 0 <= i < j < |ending| ==> ending[i] != ending[j]
      ensures |ending| == |EndedPlans(plans, now)|
    {
      ending := [];
      var left := EndedPlans(plans, now);
      while left != {}
        invariant |ending| + |left| == |EndedPlans(plans, now)|
        invariant forall id :: id in ending || id in left <==> id in plans && Ended(plans[id], now)
        invariant forall id :: id in ending ==> id !in left
        invariant forall i, j :: 0 <= i < j < |ending| ==> ending[i] != ending[j]
      {
        var id :| id in left;
        ending, left := ending + [id], left - {id};
      }
    }

    /** One plan assessed over the period it closes, and moved to the next. */
    method ClosePlan(payments: seq<Payment>, id: Id) returns (change: Change)
      requires id in plans && plans[id].end.Some? && WellDated(plans[id])
      modifies `plans
      ensures plans == old(plans)[id := Close(payments, old(plans)[id], periodMonths)]
      ensures change == ChangeOf(payments, old(plans)[id], periodMonths)
    {
      var plan := plans[id];
      var closingEnd := plan.end.value;
      var closingStart;
      if plan.start.Some? {
        closingStart := plan.start.value;
      } else {
        closingStart := MovedByMonths(closingEnd, -periodMonths);
      }
      var volume := AssessedVolume(payments, plan.organization, Window(closingStart.Instant(), closingEnd.Instant()));
      var earned := if plan.negotiated then plan.feeBps else FeeBpsForVolume(volume.Total());
      var next := MovedByMonths(closingEnd, periodMonths);
      plans := plans[id := plan.(feeBps := earned, start := Some(closingEnd), end := Some(next))];
      change := Change(plan.organization, plan.feeBps, earned, volume.Total());
    }

    /** The plans named closed one after the other, and the rates that moved. */
    method CloseEach(payments: seq<Payment>, ending: seq<Id>) returns (changes: seq<Change>)
      requires forall id :: id in ending ==> id in plans && plans[id].end.Some? && WellDated(plans[id])
      requires forall id :: id in ending ==> plans[id].organization == id
      requires forall i, j :: 0 <= i < j < |ending| ==> ending[i] != ending[j]
      modifies `plans
      ensures plans == CloseThese(payments, old(plans), periodMonths, ending)
      ensures |changes| == |MovedAmong(payments, old(plans), periodMonths, ending)| && OfDistinctPlans(changes)
      ensures forall change :: change in changes <==> ReportedOf(payments, old(plans), periodMonths, ending, change)
    {
      changes := [];
      for i := 0 to |ending|
        invariant plans == CloseThese(payments, old(plans), periodMonths, ending[..i])
        invariant |changes| == |MovedAmong(payments, old(plans), periodMonths, ending[..i])|
        invariant OfDistinctPlans(changes) && OfPlansIn(changes, ending[..i])
        invariant forall change ::
          change in changes <==> ReportedOf(payments, old(plans), periodMonths, ending[..i], change)
      {
        var id := ending[i];
        assert id !in ending[..i];
        assert ending[..i + 1] == ending[..i] + [id];
        var plan := plans[id];
        var change := ClosePlan(payments, id);
        CloseOneMore(payments, old(plans), periodMonths, ending[..i], id);
        MovedOneMore(payments, old(plans), periodMonths, ending[..i], id);
        if change.toBps != plan.feeBps {
          DistinctOneMore(changes, change, ending[..i]);
          changes := changes + [change];
        }
      }
      assert ending[..|ending|] == ending;
    }

    method ClosePeriods(payments: seq<Payment>, now: int) returns (closed: nat, moved: nat, changes: seq<Change>)
      requires Valid()
      modifies `plans
      ensures Valid() && plans == CloseAll(payments, old(plans), periodMonths, now)
      ensures closed == |EndedPlans(old(plans), now)|
      ensures moved == |changes| == |MovedPlans(payments, old(plans), periodMonths, now)| <= closed
      ensures OfDistinctPlans(changes)
      ensures forall change :: change in changes <==> Reported(payments, old(plans), periodMonths, now, change)
    {
      var ending := EndingPlans(now);
      changes := CloseEach(payments, ending);
      CloseAllKeepsPlans(payments, old(plans), periodMonths, now);
      assert MovedAmong(payments, old(plans), periodMonths, ending)
          == MovedPlans(payments, old(plans), periodMonths, now);
      SubsetSize(MovedPlans(payments, old(plans), periodMonths, now), EndedPlans(old(plans), now));
      closed, moved := |ending|, |changes|;
    }
  }

  /**
   A close: a negotiated rate stays, another is read off the ladder at the volume of the period;
   the next period starts where this one ended.
   */
  lemma CloseIs(payments: seq<Payment>, plan: FeePlan, months: int)
    requires plan.end.Some?
    ensures var after := Close(payments, plan, months);
            var from := if plan.start.Some? then plan.start.value else AddMonths(plan.end.value, -months);
            var window := Window(from.Instant(), plan.end.value.Instant());
            var volume := VolumeIn(payments, plan.organization, window).Total();
            && after.organization == plan.organization && after.negotiated == plan.negotiated
            && after.start == plan.end && after.end == Some(AddMonths(plan.end.value, months))
            && (plan.negotiated ==> after.feeBps == plan.feeBps)
            && (!plan.negotiated ==>
                  after.feeBps == if volume >= 250_000_000_000 then 40 else if volume >= 50_000_000_000 then 45 else 50)
            && ChangeOf(payments, plan, months) == Change(plan.organization, plan.feeBps, after.feeBps, volume)
  {
    Ladder(VolumeIn(payments, plan.organization, ClosingWindow(plan, months)).Total());
  }

  /** And which plans are closed: those with an end that has come. */
  lemma CloseAllIs(payments: seq<Payment>, plans: map<Id, FeePlan>, months: int, now: int)
    ensures CloseAll(payments, plans, months, now).Keys == plans.Keys
    ensures forall id | id in plans && plans[id].end.Some? && plans[id].end.value.Instant() <= now ::
              CloseAll(payments, plans, months, now)[id] == Close(payments, plans[id], months)
    ensures forall id | id in plans && (plans[id].end.None? || now < plans[id].end.value.Instant()) ::
              CloseAll(payments, plans, months, now)[id] == plans[id]
  {}

  /** Which plans count as closed and as moved: by their end, and by the rate a close leaves them. */
  lemma ClosedAndMovedAre(payments: seq<Payment>, plans: map<Id, FeePlan>, months: int, now: int)
    ensures EndedPlans(plans, now)
         == set id | id in plans && plans[id].end.Some? && plans[id].end.value.Instant() <= now
    ensures MovedPlans(payments, plans, months, now)
         == set id | id in EndedPlans(plans, now) && Close(payments, plans[id], months).feeBps != plans[id].feeBps
  {}

  /** What is reported: of each plan that moved, the rates before and after, and the volume assessed. */
  lemma ReportedIs(payments: seq<Payment>, plans: map<Id, FeePlan>, months: int, now: int, change: Change)
    requires forall id :: id in plans ==> plans[id].organization == id
    ensures Reported(payments, plans, months, now, change) <==>
              && change.organization in MovedPlans(payments, plans, months, now)
              && var plan := plans[change.organization];
                 && change.fromBps == plan.feeBps && change.toBps == Close(payments, plan, months).feeBps
                 && change.volumeUsdMicros
                    == VolumeIn(payments, plan.organization, ClosingWindow(plan, months)).Total()
  {
    if change.organization in MovedPlans(payments, plans, months, now) {
      var plan := plans[change.organization];
      assert change == ChangeOf(payments, plan, months) <==>
               && change.fromBps == plan.feeBps && change.toBps == Close(payments, plan, months).feeBps
               && change.volumeUsdMicros == VolumeIn(payments, plan.organization, ClosingWindow(plan, months)).Total();
    }
  }

  /** The plans named closed, and the others as they are. */
  function CloseThese(payments: seq<Payment>, plans: map<Id, FeePlan>, months: int, ids: seq<Id>): map<Id, FeePlan> {
    map id | id in plans ::
      if id in ids && plans[id].end.Some? then Close(payments, plans[id], months) else plans[id]
  }

  lemma CloseOneMore(payments: seq<Payment>, plans: map<Id, FeePlan>, months: int, ids: seq<Id>, id: Id)
    requires id in plans && id !in ids && plans[id].end.Some?
    ensures CloseThese(payments, plans, months, ids + [id])
         == CloseThese(payments, plans, months, ids)[id := Close(payments, plans[id], months)]
    ensures forall change :: ReportedOf(payments, plans, months, ids + [id], change) <==>
              || ReportedOf(payments, plans, months, ids, change)
              || (Moved(payments, plans[id], months) && change == ChangeOf(payments, plans[id], months))
  {}

  lemma MovedOneMore(payments: seq<Payment>, plans: map<Id, FeePlan>, months: int, ids: seq<Id>, id: Id)
    requires id in plans && id !in ids && plans[id].end.Some?
    ensures |MovedAmong(payments, plans, months, ids + [id])|
         == |MovedAmong(payments, plans, months, ids)| + if Moved(payments, plans[id], months) then 1 else 0
  {
    var before, after := MovedAmong(payments, plans, months, ids), MovedAmong(payments, plans, months, ids + [id]);
    assert id !in before;
    assert after == if Moved(payments, plans[id], months) then before + {id} else before;
  }

  predicate OfPlansIn(changes: seq<Change>, ids: seq<Id>) {
    forall change :: change in changes ==> change.organization in ids
  }

  lemma DistinctOneMore(changes: seq<Change>, change: Change, ids: seq<Id>)
    requires OfDistinctPlans(changes) && OfPlansIn(changes, ids) && change.organization !in ids
    ensures OfDistinctPlans(changes + [change]) && OfPlansIn(changes + [change], ids + [change.organization])
  {}

  lemma CloseAllKeepsPlans(payments: seq<Payment>, plans: map<Id, FeePlan>, months: int, now: int)
    requires months >= 1 && forall id :: id in plans ==> Sound(id, plans[id])
    ensures forall id :: id in plans ==> Sound(id, CloseAll(payments, plans, months, now)[id])
  {
    forall id | id in plans && Ended(plans[id], now) ensures Sound(id, Close(payments, plans[id], months)) {
      CloseKeepsDates(payments, plans[id], months);
      Ladder(VolumeIn(payments, plans[id].organization, ClosingWindow(plans[id], months)).Total());
    }
  }

  ghost predicate ReportedOf(payments: seq<Payment>, plans: map<Id, FeePlan>, months: int, ids: seq<Id>,
      change: Change) {
    exists id :: id in ids && id in plans && plans[id].end.Some?
      && Moved(payments, plans[id], months) && change == ChangeOf(payments, plans[id], months)
  }

  /** A change is reported exactly for a plan whose period ended and whose rate moved. */
  ghost predicate Reported(payments: seq<Payment>, plans: map<Id, FeePlan>, months: int, now: int, change: Change) {
    exists id :: id in plans && Moves(payments, plans[id], months, now)
      && change == ChangeOf(payments, plans[id], months)
  }

  /** Dates are dates, and a period starts no later than it ends. */
  predicate WellDated(plan: FeePlan) {
    && (plan.end.Some? ==> plan.end.value.Valid())
    && (plan.start.Some? ==> plan.start.value.Valid())
    && (plan.start.Some? && plan.end.Some? ==> plan.start.value.Instant() <= plan.end.value.Instant())
  }

  /** A plan is its organisation's, at a rate the forwarder can deliver. */
  predicate Sound(id: Id, plan: FeePlan) {
    plan.organization == id && plan.feeBps <= MAX_FEE_BPS && WellDated(plan)
  }

  lemma CloseKeepsDates(payments: seq<Payment>, plan: FeePlan, months: int)
    requires WellDated(plan) && plan.end.Some? && months >= 1
    ensures WellDated(Close(payments, plan, months)) && Close(payments, plan, months).end.Some?
    ensures Close(payments, plan, months).end.value.Instant() >= plan.end.value.Instant() + 28 * DAY_MS
    ensures ClosingWindow(plan, months).from <= ClosingWindow(plan, months).to
    ensures ClosingWindow(Close(payments, plan, months), months).from == ClosingWindow(plan, months).to
  {
    AddMonthsMovesForward(plan.end.value, months);
    EarlierMonth(AddMonths(plan.end.value, -months), plan.end.value);
  }
}
