/**
 The payout address service of apps/api/src/domain/payout-service.ts over its two tables, and
 runs of it: any sequence of requests, cancellations and timer passes at non-decreasing times.
 */
module PayoutAddresses {
  import opened Options
  import opened PayoutHistory

  datatype Event =
    | Requested(slot: Slot, address: string, at: Time)
    | Cancelled(organization: string, id: nat, at: Time)
    | Applied(ids: seq<nat>, at: Time)

  ghost predicate Enabled(book: Book, ev: Event) {
    match ev
    case Requested(slot, address, _) => RequestRefusal(book, slot, true, Some(address)).None?
    case Cancelled(organization, id, _) => CancelRefusal(book, organization, id).None?
    case Applied(ids, at) => ListsDue(book, ids, at)
  }

  ghost function Next(book: Book, delay: nat, ev: Event): Book
    requires Enabled(book, ev)
  {
    match ev
    case Requested(slot, address, at) => Request(book, slot, address, delay, at)
    case Cancelled(_, id, at) => Cancel(book, id, at)
    case Applied(ids, at) => ApplyEach(book, ids, at)
  }

  /** A call that is refused changes nothing. */
  ghost function Step(book: Book, delay: nat, ev: Event): Book {
    if Enabled(book, ev) then Next(book, delay, ev) else book
  }

  ghost function Run(book: Book, delay: nat, events: seq<Event>): Book {
    if events == [] then book else Step(Run(book, delay, events[..|events| - 1]), delay, events[|events| - 1])
  }

  /** No call is earlier than the one before it, or than this. */
  ghost predicate Timely(events: seq<Event>, clock: Time) {
    && (forall i :: 0 <= i < |events| ==> clock <= events[i].at)
    && (forall i, j :: 0 <= i < j < |events| ==> events[i].at <= events[j].at)
  }

  ghost function ClockAfter(events: seq<Event>, clock: Time): Time {
    if events == [] then clock else events[|events| - 1].at
  }

  lemma LaterClock(book: Book, delay: nat, clock: Time, now: Time)
    requires Inv(book, delay, clock) && clock <= now
    ensures Inv(book, delay, now)
  {}

  lemma StepKeepsInv(book: Book, delay: nat, clock: Time, ev: Event)
    requires Inv(book, delay, clock) && clock <= ev.at
    ensures Inv(Step(book, delay, ev), delay, ev.at)
  {
    LaterClock(book, delay, clock, ev.at);
    if Enabled(book, ev) {
      match ev
      case Requested(slot, address, at) => RequestKeepsInv(book, slot, address, delay, clock, at);
      case Cancelled(_, id, at) => CancelKeepsInv(book, id, delay, clock, at);
      case Applied(ids, at) => ApplyEachKeepsInv(book, ids, delay, clock, at, ApplyEach(book, ids, at));
    }
  }

  /** The history stays a chain through every run. */
  lemma {:induction false} RunKeepsInv(book: Book, delay: nat, clock: Time, events: seq<Event>)
    requires Inv(book, delay, clock) && Timely(events, clock)
    ensures Inv(Run(book, delay, events), delay, ClockAfter(events, clock))
  {
    if events != [] {
      var rest := events[..|events| - 1];
      RunKeepsInv(book, delay, clock, rest);
      StepKeepsInv(Run(book, delay, rest), delay, ClockAfter(rest, clock), events[|events| - 1]);
    }
  }

  const NO_ADDRESSES := Book([], [])

  /** After every run, a slot has one answer for each moment from its first address on. */
  lemma OneAnswerAfterEveryRun(delay: nat, clock: Time, events: seq<Event>, slot: Slot, t: Time)
    requires Timely(events, clock)
    ensures var rows := Run(NO_ADDRESSES, delay, events).addresses;
            && (Begun(rows, slot, t) <==> exists i :: 0 <= i < |rows| && ActiveAt(rows[i], slot, t))
            && forall i, j | 0 <= i < |rows| && 0 <= j < |rows|
                 :: ActiveAt(rows[i], slot, t) && ActiveAt(rows[j], slot, t) ==> i == j
  {
    RunKeepsInv(NO_ADDRESSES, delay, clock, events);
    OneAddressAtATime(Run(NO_ADDRESSES, delay, events), delay, ClockAfter(events, clock), slot, t);
  }

  /** After every run, an address that is not its slot's first waited out the delay, uncancelled. */
  lemma ReplacementsWaited(delay: nat, clock: Time, events: seq<Event>, i: nat, j: nat)
    requires Timely(events, clock)
    requires var rows := Run(NO_ADDRESSES, delay, events).addresses; i < j < |rows| && rows[i].slot == rows[j].slot
    ensures var book := Run(NO_ADDRESSES, delay, events);
            book.addresses[j].changeId.Some? && Waited(book, book.addresses[j], delay)
  {
    RunKeepsInv(NO_ADDRESSES, delay, clock, events);
  }

  /** After every run, a change that may still happen names the active address, and no other of its slot may. */
  lemma OutstandingNamesTheActive(delay: nat, clock: Time, events: seq<Event>, i: nat)
    requires Timely(events, clock)
    requires var book := Run(NO_ADDRESSES, delay, events); i < |book.changes| && Outstanding(book.changes[i])
    ensures var book := Run(NO_ADDRESSES, delay, events);
            && NamesActive(book, book.changes[i])
            && forall j :: 0 <= j < |book.changes| && j != i && book.changes[j].slot == book.changes[i].slot ==>
              !Outstanding(book.changes[j])
  {
    RunKeepsInv(NO_ADDRESSES, delay, clock, events);
  }

  // ── The past does not change ───────────────────────────────────────────────

  /** Every address was active at that moment just when it was before, and newer ones were not. */
  ghost predicate SamePast(before: seq<AddressRow>, after: seq<AddressRow>, slot: Slot, t: Time) {
    && |before| <= |after|
    && (forall i :: 0 <= i < |before| ==>
      (ActiveAt(before[i], slot, t) <==> ActiveAt(after[i], slot, t)) && after[i].address == before[i].address)
    && (forall i :: |before| <= i < |after| ==> !ActiveAt(after[i], slot, t))
  }

  lemma {:induction false} ApplyKeepsPast(book: Book, ids: seq<nat>, now: Time, slot: Slot, t: Time)
    requires t < now && forall i :: 0 <= i < |ids| ==> ids[i] < |book.changes|
    ensures SamePast(book.addresses, ApplyEach(book, ids, now).addresses, slot, t)
  {
    if ids != [] { ApplyKeepsPast(book, ids[..|ids| - 1], now, slot, t); }
  }

  lemma StepKeepsPast(book: Book, delay: nat, ev: Event, slot: Slot, t: Time)
    requires t < ev.at
    ensures SamePast(book.addresses, Step(book, delay, ev).addresses, slot, t)
  {
    if Enabled(book, ev) && ev.Applied? { ApplyKeepsPast(book, ev.ids, ev.at, slot, t); }
  }

  /** Which address was active at a moment is never answered differently later. */
  lemma {:induction false} PastIsSettled(book: Book, delay: nat, events: seq<Event>, slot: Slot, t: Time)
    requires forall i :: 0 <= i < |events| ==> t < events[i].at
    ensures SamePast(book.addresses, Run(book, delay, events).addresses, slot, t)
  {
    if events != [] {
      var rest := events[..|events| - 1];
      PastIsSettled(book, delay, rest, slot, t);
      StepKeepsPast(Run(book, delay, rest), delay, events[|events| - 1], slot, t);
    }
  }

  // ── The service ────────────────────────────────────────────────────────────

  datatype RequestOutcome =
    | Active(address: string)
    | Scheduled(address: string, effectiveAt: Time, changeId: nat)
    | Refused(error: PayoutError)

  /** Refused, active at once as a slot's first, or scheduled behind the delay. */
  function Answer(book: Book, slot: Slot, supported: bool, address: Option<string>, delay: nat,
      now: Time): RequestOutcome {
    var refusal := RequestRefusal(book, slot, supported, address);
    if refusal.Some? then Refused(refusal.value)
    else if CurrentOf(book.addresses, slot) == |book.addresses| then Active(address.value)
    else Scheduled(address.value, now + delay, |book.changes|)
  }

  /** The answer to a request that is not refused: the slot's first address is active, another waits as a new change. */
  lemma AnswerIs(book: Book, slot: Slot, supported: bool, address: Option<string>, delay: nat, now: Time)
    ensures var answer, refusal := Answer(book, slot, supported, address, delay, now),
                                   RequestRefusal(book, slot, supported, address);
            if refusal.Some? then answer == Refused(refusal.value)
            else if exists i :: IsCurrent(book, slot, i)
            then answer == Scheduled(address.value, now + delay, |book.changes|)
            else answer == Active(address.value)
  {
    RequestRefused(book, slot, supported, address, CurrentOf(book.addresses, slot));
  }

  class PayoutAddressService {
    var addresses: seq<AddressRow>
    var changes: seq<Change>
    /** The time of the last call. */
    ghost var clock: Time

    const delayMs: nat
    const supported: set<string>
    /** An address in its chain's stored form; none when it is not an address of that chain. */
    const normalize: (string, string) -> Option<string>

    function State(): Book
      reads this
    {
      Book(addresses, changes)
    }

    ghost predicate Valid()
      reads this
    {
      Inv(State(), delayMs, clock)
    }

    constructor (delayMs: nat, supported: set<string>, normalize: (string, string) -> Option<string>, ghost start: Time)
      ensures Valid() && State() == NO_ADDRESSES && clock == start
      ensures this.delayMs == delayMs && this.supported == supported && this.normalize == normalize
    {
      this.delayMs, this.supported, this.normalize := delayMs, supported, normalize;
      addresses, changes, clock := [], [], start;
    }

    /** The address settlements go to now. */
    method ActiveAddress(organization: string, chain: string) returns (address: Option<string>)
      requires Valid()
      ensures var slot := Slot(organization, chain);
              && (address.Some? <==> Begun(addresses, slot, clock))
              && forall i :: 0 <= i < |addresses| && ActiveAt(addresses[i], slot, clock) ==>
                address == Some(addresses[i].address)
    {
      var slot := Slot(organization, chain);
      var i := CurrentOf(addresses, slot);
      CurrentIsActive(State(), delayMs, clock, slot);
      address := if i < |addresses| then Some(addresses[i].address) else None;
    }

    method TryChange(slot: Slot, rawAddress: string, now: Time) returns (outcome: RequestOutcome)
      modifies `addresses, `changes
      ensures outcome
           == Answer(old(State()), slot, slot.chain in supported, normalize(slot.chain, rawAddress), delayMs, now)
      ensures outcome.Refused? ==> State() == old(State())
      ensures !outcome.Refused? ==> State() == Request(old(State()), slot, outcome.address, delayMs, now)
    {
      if slot.chain !in supported { return Refused(UnsupportedChain); }
      var normalized := normalize(slot.chain, rawAddress);
      if normalized.None? { return Refused(InvalidAddress); }
      var address := normalized.value;
      var existing := CurrentOf(addresses, slot);
      if existing < |addresses| && addresses[existing].address == address { return Refused(Unchanged); }
      if HasOutstanding(changes, slot) { return Refused(ChangeAlreadyPending); }
      if existing == |addresses| {
        addresses := addresses + [AddressRow(slot, address, now, None, None)];
        return Active(address);
      }
      changes := changes + [Change(slot, address, existing, now, now + delayMs, None, None)];
      outcome := Scheduled(address, now + delayMs, |changes| - 1);
    }

    method RequestChange(organization: string, chain: string, rawAddress: string,
        now: Time) returns (outcome: RequestOutcome)
      requires Valid() && clock <= now
      modifies this
      ensures Valid() && clock == now
      ensures var slot := Slot(organization, chain);
              outcome == Answer(old(State()), slot, chain in supported, normalize(chain, rawAddress), delayMs, now)
      ensures outcome.Refused? ==> State() == old(State())
      ensures !outcome.Refused? ==>
             State() == Step(old(State()), delayMs, Requested(Slot(organization, chain), outcome.address, now))
    {
      var slot := Slot(organization, chain);
      outcome := TryChange(slot, rawAddress, now);
      if outcome.Refused? {
        LaterClock(State(), delayMs, clock, now);
      } else {
        StepKeepsInv(old(State()), delayMs, clock, Requested(slot, outcome.address, now));
      }
      clock := now;
    }

    method CancelChange(organization: string, id: nat, now: Time) returns (error: Option<PayoutError>)
      requires Valid() && clock <= now
      modifies this
      ensures Valid() && clock == now && error == CancelRefusal(old(State()), organization, id)
      ensures error.Some? ==> State() == old(State())
      ensures error.None? ==> State() == Next(old(State()), delayMs, Cancelled(organization, id, now))
    {
      LaterClock(State(), delayMs, clock, now);
      clock := now;
      if id >= |changes| || changes[id].slot.organization != organization { return Some(NotFound); }
      if changes[id].cancelledAt.Some? { return Some(AlreadyCancelled); }
      if changes[id].appliedAt.Some? { return Some(AlreadyApplied); }
      CancelKeepsInv(State(), id, delayMs, clock, now);
      changes := changes[id := changes[id].(cancelledAt := Some(now))];
      error := None;
    }

    method DueChanges(now: Time) returns (due: seq<nat>)
      ensures ListsDue(State(), due, now)
    {
      due := [];
      for i := 0 to |changes|
        invariant DueIds(State(), due, now) && forall k :: 0 <= k < |due| ==> due[k] < i
        invariant forall id :: 0 <= id < i && Due(changes[id], now) ==> id in due
      {
        ghost var before := due;
        if Due(changes[i], now) {
          due := due + [i];
          assert due[|before|] == i && forall k :: 0 <= k < |before| ==> due[k] == before[k];
        }
      }
    }

    /** One change takes effect: the address it names is superseded, and its own inserted. */
    method ApplyOne(id: nat, now: Time)
      requires id < |changes|
      modifies `addresses, `changes
      ensures State() == ApplyChange(old(State()), id, now)
    {
      var change := changes[id];
      if change.replacedId < |addresses| && addresses[change.replacedId].supersededAt.None? {
        addresses := addresses[change.replacedId := addresses[change.replacedId].(supersededAt := Some(now))];
      }
      addresses := addresses + [AddressRow(change.slot, change.address, now, None, Some(id))];
      changes := changes[id := change.(appliedAt := Some(now))];
    }

    method ApplyDueChanges(now: Time) returns (applied: nat, ghost due: seq<nat>)
      requires Valid() && clock <= now
      modifies this
      ensures Valid() && clock == now
      ensures ListsDue(old(State()), due, now) && applied == |due|
      ensures State() == Next(old(State()), delayMs, Applied(due, now))
      ensures forall id :: 0 <= id < |changes| ==> !Due(changes[id], now)
    {
      var ids := DueChanges(now);
      due, applied := ids, 0;
      for i := 0 to |ids|
        invariant applied == i && State() == ApplyEach(old(State()), ids[..i], now)
      {
        assert ids[..i + 1][..i] == ids[..i];
        ApplyOne(ids[i], now);
        applied := applied + 1;
      }
      assert ids[..|ids|] == ids;
      ApplyEachKeepsInv(old(State()), ids, delayMs, old(clock), now, State());
      clock := now;
    }
  }

  /** The address that is not superseded is the one active now. */
  lemma CurrentIsActive(book: Book, delay: nat, clock: Time, slot: Slot)
    requires Inv(book, delay, clock)
    ensures var i := CurrentOf(book.addresses, slot);
            && (i < |book.addresses| <==> Begun(book.addresses, slot, clock))
            && (i < |book.addresses| ==> ActiveAt(book.addresses[i], slot, clock))
            && forall j :: 0 <= j < |book.addresses| && ActiveAt(book.addresses[j], slot, clock) ==> j == i
  {
    OneAddressAtATime(book, delay, clock, slot, clock);
    if Begun(book.addresses, slot, clock) {
      var j :| 0 <= j < |book.addresses| && book.addresses[j].slot == slot && book.addresses[j].activeFrom <= clock;
      EverySlotHasACurrent(book.addresses, slot, j);
    }
  }
}
