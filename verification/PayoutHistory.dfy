/**
 Where a merchant's settled funds go, and went: apps/api/src/domain/payout-service.ts. An address
 is never changed in place; a replacement is requested, waits, may be cancelled, and then
 supersedes the address it names.
 */
module PayoutHistory {
  import opened Options

  type Time = int

  /** One organisation's payouts on one chain. */
  datatype Slot = Slot(organization: string, chain: string)

  datatype AddressRow = AddressRow(slot: Slot, address: string, activeFrom: Time, supersededAt: Option<Time>,
        changeId: Option<nat>)

  datatype Change = Change(slot: Slot, address: string, replacedId: nat, requestedAt: Time, effectiveAt: Time,
                           appliedAt: Option<Time>, cancelledAt: Option<Time>)

  /** Both tables; a row's identity is its place. */
  datatype Book = Book(addresses: seq<AddressRow>, changes: seq<Change>)

  predicate Current(row: AddressRow, slot: Slot) {
    row.slot == slot && row.supersededAt.None?
  }

  predicate Outstanding(change: Change) {
    change.appliedAt.None? && change.cancelledAt.None?
  }

  predicate Due(change: Change, now: Time) {
    Outstanding(change) && change.effectiveAt <= now
  }

  /** The place of an address that is not superseded; the number of rows when there is none. */
  function CurrentOf(addresses: seq<AddressRow>, slot: Slot): (i: nat)
    ensures i <= |addresses| && (i < |addresses| ==> Current(addresses[i], slot))
    ensures i == |addresses| ==> forall j :: 0 <= j < |addresses| ==> !Current(addresses[j], slot)
  {
    if addresses == [] then 0
    else
      var n := |addresses| - 1;
      var i := CurrentOf(addresses[..n], slot);
      if i < n then i else if Current(addresses[n], slot) then n else n + 1
  }

  predicate HasOutstanding(changes: seq<Change>, slot: Slot) {
    exists i :: 0 <= i < |changes| && changes[i].slot == slot && Outstanding(changes[i])
  }

  datatype PayoutError =
    | UnsupportedChain | InvalidAddress | Unchanged | ChangeAlreadyPending
    | NotFound | AlreadyCancelled | AlreadyApplied

  /** Why a change of address is refused; `address` is none when it is not one of its chain. */
  function RequestRefusal(book: Book, slot: Slot, supported: bool, address: Option<string>): Option<PayoutError> {
    if !supported then Some(UnsupportedChain)
    else if address.None? then Some(InvalidAddress)
    else
      var i := CurrentOf(book.addresses, slot);
      if i < |book.addresses| && book.addresses[i].address == address.value then Some(Unchanged)
      else if HasOutstanding(book.changes, slot) then Some(ChangeAlreadyPending)
      else None
  }

  /** The first address is active at once; another waits out the delay. */
  function Request(book: Book, slot: Slot, address: string, delay: nat, now: Time): Book {
    var i := CurrentOf(book.addresses, slot);
    if i == |book.addresses| then book.(addresses := book.addresses + [AddressRow(slot, address, now, None, None)])
    else book.(changes := book.changes + [Change(slot, address, i, now, now + delay, None, None)])
  }

  function CancelRefusal(book: Book, organization: string, id: nat): Option<PayoutError> {
    if id >= |book.changes| || book.changes[id].slot.organization != organization then Some(NotFound)
    else if book.changes[id].cancelledAt.Some? then Some(AlreadyCancelled)
    else if book.changes[id].appliedAt.Some? then Some(AlreadyApplied)
    else None
  }

  function Cancel(book: Book, id: nat, now: Time): Book
    requires id < |book.changes|
  {
    book.(changes := book.changes[id := book.changes[id].(cancelledAt := Some(now))])
  }

  function Supersede(addresses: seq<AddressRow>, id: nat, now: Time): seq<AddressRow> {
    if id < |addresses| && addresses[id].supersededAt.None?
    then addresses[id := addresses[id].(supersededAt := Some(now))] else addresses
  }

  /** One change takes effect. */
  function ApplyChange(book: Book, id: nat, now: Time): Book
    requires id < |book.changes|
  {
    var change := book.changes[id];
    var row := AddressRow(change.slot, change.address, now, None, Some(id));
    Book(Supersede(book.addresses, change.replacedId, now) + [row], book.changes[id := change.(appliedAt := Some(now))])
  }

  function ApplyEach(book: Book, ids: seq<nat>, now: Time): (after: Book)
    requires forall i :: 0 <= i < |ids| ==> ids[i] < |book.changes|
    ensures |after.changes| == |book.changes|
  {
    if ids == [] then book else ApplyChange(ApplyEach(book, ids[..|ids| - 1], now), ids[|ids| - 1], now)
  }

  /** Changes that are due, each once. */
  ghost predicate DueIds(book: Book, ids: seq<nat>, now: Time) {
    && (forall i :: 0 <= i < |ids| ==> ids[i] < |book.changes| && Due(book.changes[ids[i]], now))
    && (forall i, j :: 0 <= i < j < |ids| ==> ids[i] != ids[j])
  }

  /** All the changes that are due, each once, in some order. */
  ghost predicate ListsDue(book: Book, ids: seq<nat>, now: Time) {
    DueIds(book, ids, now) && forall id :: 0 <= id < |book.changes| && Due(book.changes[id], now) ==> id in ids
  }

  // ── What every run keeps ───────────────────────────────────────────────────

  /** An earlier address of a slot was superseded no later than a later one became active. */
  ghost predicate Ordered(addresses: seq<AddressRow>) {
    forall i, j :: 0 <= i < j < |addresses| && addresses[i].slot == addresses[j].slot ==>
      addresses[i].supersededAt.Some? && addresses[i].supersededAt.value <= addresses[j].activeFrom
  }

  ghost predicate SucceededAt(addresses: seq<AddressRow>, i: nat, t: Time)
    requires i < |addresses|
  {
    exists j :: i < j < |addresses| && addresses[j].slot == addresses[i].slot && addresses[j].activeFrom == t
  }

  /** A superseded address has a successor, active from that moment. */
  ghost predicate Contiguous(addresses: seq<AddressRow>) {
    forall i :: 0 <= i < |addresses| && addresses[i].supersededAt.Some? ==>
      SucceededAt(addresses, i, addresses[i].supersededAt.value)
  }

  /** A change that may still happen names the active address, and is the only one of its slot. */
  ghost predicate NamesActive(book: Book, change: Change) {
    change.replacedId < |book.addresses| && Current(book.addresses[change.replacedId], change.slot)
  }

  ghost predicate ChangesSound(book: Book) {
    && (forall i :: 0 <= i < |book.changes| && Outstanding(book.changes[i]) ==> NamesActive(book, book.changes[i]))
    && (forall i, j :: 0 <= i < j < |book.changes| && Outstanding(book.changes[i]) && Outstanding(book.changes[j])
          ==> book.changes[i].slot != book.changes[j].slot)
  }

  /** A replacement comes from a change that nobody cancelled and that waited out the delay. */
  ghost predicate Waited(book: Book, row: AddressRow, delay: nat) {
    row.changeId.Some? ==>
      && row.changeId.value < |book.changes|
      && var change := book.changes[row.changeId.value];
         && change.slot == row.slot && change.address == row.address
         && change.appliedAt == Some(row.activeFrom) && change.cancelledAt.None?
         && change.requestedAt + delay <= row.activeFrom
  }

  ghost predicate Origins(book: Book, delay: nat) {
    && (forall i :: 0 <= i < |book.addresses| ==> Waited(book, book.addresses[i], delay))
    && (forall i, j :: 0 <= i < j < |book.addresses| && book.addresses[i].slot == book.addresses[j].slot
          ==> book.addresses[j].changeId.Some?)
  }

  /** Nothing is dated after the clock, and every change waits out the delay. */
  ghost predicate Dated(book: Book, delay: nat, clock: Time) {
    && (forall i :: 0 <= i < |book.addresses| ==> book.addresses[i].activeFrom <= clock)
    && (forall i :: 0 <= i < |book.changes| ==> book.changes[i].effectiveAt == book.changes[i].requestedAt + delay)
  }

  ghost predicate Inv(book: Book, delay: nat, clock: Time) {
    && Ordered(book.addresses) && Contiguous(book.addresses)
    && ChangesSound(book) && Origins(book, delay) && Dated(book, delay, clock)
  }

  // ── One row more, or one superseded ────────────────────────────────────────

  lemma AppendFirst(addresses: seq<AddressRow>, row: AddressRow)
    requires Ordered(addresses) && Contiguous(addresses) && row.supersededAt.None?
    requires forall i :: 0 <= i < |addresses| ==> addresses[i].slot != row.slot
    ensures Ordered(addresses + [row]) && Contiguous(addresses + [row])
  {
    forall i | 0 <= i < |addresses| && addresses[i].supersededAt.Some?
      ensures SucceededAt(addresses + [row], i, addresses[i].supersededAt.value)
    {
      StillSucceeded(addresses, addresses + [row], i, addresses[i].supersededAt.value);
    }
  }

  lemma StillSucceeded(addresses: seq<AddressRow>, after: seq<AddressRow>, i: nat, t: Time)
    requires i < |addresses| <= |after| && SucceededAt(addresses, i, t)
    requires forall j :: 0 <= j < |addresses| ==>
           after[j].slot == addresses[j].slot && after[j].activeFrom == addresses[j].activeFrom
    ensures SucceededAt(after, i, t)
  {
    var j :| i < j < |addresses| && addresses[j].slot == addresses[i].slot && addresses[j].activeFrom == t;
    assert after[j].activeFrom == t;
  }

  /** The address that is not superseded is the last of its slot. */
  lemma CurrentIsLast(addresses: seq<AddressRow>, i: nat, j: nat)
    requires Ordered(addresses) && i < |addresses| && j < |addresses|
    requires addresses[j].slot == addresses[i].slot && addresses[i].supersededAt.None?
    ensures j <= i
  {}

  lemma EverySlotHasACurrent(addresses: seq<AddressRow>, slot: Slot, i: nat)
    requires Contiguous(addresses) && i < |addresses| && addresses[i].slot == slot
    ensures exists j :: 0 <= j < |addresses| && Current(addresses[j], slot)
    decreases |addresses| - i
  {
    if addresses[i].supersededAt.Some? {
      var j :| i < j < |addresses| && addresses[j].slot == slot
        && addresses[j].activeFrom == addresses[i].supersededAt.value;
      EverySlotHasACurrent(addresses, slot, j);
    }
  }

  lemma ReplaceKeepsOrder(addresses: seq<AddressRow>, id: nat, row: AddressRow)
    requires Ordered(addresses) && id < |addresses| && Current(addresses[id], row.slot) && row.supersededAt.None?
    requires forall i :: 0 <= i < |addresses| ==> addresses[i].activeFrom <= row.activeFrom
    ensures Ordered(Supersede(addresses, id, row.activeFrom) + [row])
  {
    var after := Supersede(addresses, id, row.activeFrom) + [row];
    forall i, j | 0 <= i < j < |after| && after[i].slot == after[j].slot
      ensures after[i].supersededAt.Some? && after[i].supersededAt.value <= after[j].activeFrom
    {
      if j < |addresses| {
        assert addresses[i].slot == addresses[j].slot;
      } else if i != id {
        CurrentIsLast(addresses, id, i);
        assert addresses[i].supersededAt.value <= addresses[id].activeFrom;
      }
    }
  }

  lemma ReplaceKeepsContiguity(addresses: seq<AddressRow>, id: nat, row: AddressRow)
    requires Contiguous(addresses) && id < |addresses| && Current(addresses[id], row.slot)
    requires row.supersededAt.None?
    ensures Contiguous(Supersede(addresses, id, row.activeFrom) + [row])
  {
    var after := Supersede(addresses, id, row.activeFrom) + [row];
    forall i | 0 <= i < |after| && after[i].supersededAt.Some?
      ensures SucceededAt(after, i, after[i].supersededAt.value) {
      if i == id {
        assert after[|addresses|] == row;
      } else {
        StillSucceeded(addresses, after, i, after[i].supersededAt.value);
      }
    }
  }

  // ── Each call ──────────────────────────────────────────────────────────────

  lemma RequestKeepsInv(book: Book, slot: Slot, address: string, delay: nat, clock: Time, now: Time)
    requires Inv(book, delay, clock) && clock <= now && !HasOutstanding(book.changes, slot)
    ensures Inv(Request(book, slot, address, delay, now), delay, now)
  {
    var i := CurrentOf(book.addresses, slot);
    if i == |book.addresses| {
      forall j | 0 <= j < |book.addresses| ensures book.addresses[j].slot != slot {
        if book.addresses[j].slot == slot { EverySlotHasACurrent(book.addresses, slot, j); }
      }
      AppendFirst(book.addresses, AddressRow(slot, address, now, None, None));
    }
  }

  lemma CancelKeepsInv(book: Book, id: nat, delay: nat, clock: Time, now: Time)
    requires Inv(book, delay, clock) && clock <= now && id < |book.changes| && Outstanding(book.changes[id])
    ensures Inv(Cancel(book, id, now), delay, now)
  {}

  lemma ApplyKeepsChanges(book: Book, id: nat, now: Time)
    requires ChangesSound(book) && id < |book.changes| && Outstanding(book.changes[id])
    ensures ChangesSound(ApplyChange(book, id, now))
  {
    var after := ApplyChange(book, id, now);
    forall i | 0 <= i < |after.changes| && Outstanding(after.changes[i]) ensures NamesActive(after, after.changes[i]) {
      assert NamesActive(book, book.changes[i]) && NamesActive(book, book.changes[id]);
      assert book.changes[i].slot != book.changes[id].slot;
    }
  }

  lemma ApplyKeepsOrigins(book: Book, id: nat, delay: nat, clock: Time, now: Time)
    requires Origins(book, delay) && Dated(book, delay, clock) && id < |book.changes| && Due(book.changes[id], now)
    ensures Origins(ApplyChange(book, id, now), delay)
  {
    var after := ApplyChange(book, id, now);
    forall i | 0 <= i < |after.addresses| ensures Waited(after, after.addresses[i], delay) {
      if i < |book.addresses| { assert Waited(book, book.addresses[i], delay); }
    }
  }

  lemma ApplyKeepsInv(book: Book, id: nat, delay: nat, clock: Time, now: Time)
    requires Inv(book, delay, clock) && clock <= now && id < |book.changes| && Due(book.changes[id], now)
    ensures Inv(ApplyChange(book, id, now), delay, now)
  {
    var change := book.changes[id];
    var row := AddressRow(change.slot, change.address, now, None, Some(id));
    ReplaceKeepsOrder(book.addresses, change.replacedId, row);
    ReplaceKeepsContiguity(book.addresses, change.replacedId, row);
    ApplyKeepsChanges(book, id, now);
    ApplyKeepsOrigins(book, id, delay, clock, now);
  }

  /** The changes named are applied, the others are as they were. */
  ghost predicate AppliedOnly(before: Book, after: Book, ids: seq<nat>, now: Time) {
    && |after.changes| == |before.changes|
    && (forall id :: 0 <= id < |before.changes| && id !in ids ==> after.changes[id] == before.changes[id])
    && (forall id :: 0 <= id < |before.changes| && id in ids ==>
      after.changes[id] == before.changes[id].(appliedAt := Some(now)))
  }

  ghost predicate Applied(before: Book, after: Book, ids: seq<nat>, delay: nat, now: Time) {
    Inv(after, delay, now) && AppliedOnly(before, after, ids, now)
  }

  lemma ApplyNone(book: Book, delay: nat, clock: Time, now: Time)
    requires Inv(book, delay, clock) && clock <= now
    ensures Applied(book, book, [], delay, now)
  {}

  lemma ApplyOneMore(book: Book, ids: seq<nat>, rest: seq<nat>, last: nat, before: Book, after: Book, delay: nat,
      now: Time)
    requires last < |book.changes| && Due(book.changes[last], now) && last !in rest && ids == rest + [last]
    requires Applied(book, before, rest, delay, now) && after == ApplyChange(before, last, now)
    ensures Applied(book, after, ids, delay, now)
  {
    ApplyKeepsInv(before, last, delay, now, now);
  }

  lemma DueButLast(book: Book, ids: seq<nat>, now: Time)
    requires DueIds(book, ids, now) && ids != []
    ensures var rest, last := ids[..|ids| - 1], ids[|ids| - 1];
            DueIds(book, rest, now) && last < |book.changes| && Due(book.changes[last], now) && last !in rest
              && ids == rest + [last]
  {}

  /** One due change after the other, all of them are applied and nothing else is. */
  lemma {:induction false} ApplyEachKeepsInv(book: Book, ids: seq<nat>, delay: nat, clock: Time, now: Time, after: Book)
    requires Inv(book, delay, clock) && clock <= now
    requires DueIds(book, ids, now) && after == ApplyEach(book, ids, now)
    ensures Applied(book, after, ids, delay, now)
    decreases |ids|
  {
    if ids == [] {
      ApplyNone(book, delay, clock, now);
    } else {
      var rest, last := ids[..|ids| - 1], ids[|ids| - 1];
      DueButLast(book, ids, now);
      var before := ApplyEach(book, rest, now);
      ApplyEachKeepsInv(book, rest, delay, clock, now, before);
      ApplyOneMore(book, ids, rest, last, before, after, delay, now);
    }
  }

  // ── What a history says ────────────────────────────────────────────────────

  predicate ActiveAt(row: AddressRow, slot: Slot, t: Time) {
    row.slot == slot && row.activeFrom <= t && (row.supersededAt.None? || t < row.supersededAt.value)
  }

  /** Some address was active from a moment no later than this one. */
  ghost predicate Begun(addresses: seq<AddressRow>, slot: Slot, t: Time) {
    exists i :: 0 <= i < |addresses| && addresses[i].slot == slot && addresses[i].activeFrom <= t
  }

  lemma FindActive(addresses: seq<AddressRow>, slot: Slot, t: Time, i: nat) returns (j: nat)
    requires Contiguous(addresses) && i < |addresses| && addresses[i].slot == slot && addresses[i].activeFrom <= t
    ensures j < |addresses| && ActiveAt(addresses[j], slot, t)
    decreases |addresses| - i
  {
    if ActiveAt(addresses[i], slot, t) {
      j := i;
    } else {
      var k :| i < k < |addresses| && addresses[k].slot == slot
        && addresses[k].activeFrom == addresses[i].supersededAt.value;
      j := FindActive(addresses, slot, t, k);
    }
  }

  /** From its first address on, a slot has exactly one answer to which address was active at a moment. */
  lemma OneAddressAtATime(book: Book, delay: nat, clock: Time, slot: Slot, t: Time)
    requires Inv(book, delay, clock)
    ensures Begun(book.addresses, slot, t)
       <==> exists i :: 0 <= i < |book.addresses| && ActiveAt(book.addresses[i], slot, t)
    ensures forall i, j :: (0 <= i < |book.addresses| && 0 <= j < |book.addresses|
              && ActiveAt(book.addresses[i], slot, t) && ActiveAt(book.addresses[j], slot, t)) ==> i == j
  {
    if Begun(book.addresses, slot, t) {
      var i :| 0 <= i < |book.addresses| && book.addresses[i].slot == slot && book.addresses[i].activeFrom <= t;
      var _ := FindActive(book.addresses, slot, t, i);
    }
  }

  // ── What is asked and refused ──────────────────────────────────────────────

  /** An address of the slot that has not been superseded. */
  ghost predicate IsCurrent(book: Book, slot: Slot, i: int) {
    0 <= i < |book.addresses| && book.addresses[i].slot == slot && book.addresses[i].supersededAt.None?
  }

  /** A change of the slot that was neither applied nor cancelled. */
  ghost predicate StillPending(book: Book, slot: Slot, i: int) {
    && 0 <= i < |book.changes| && book.changes[i].slot == slot
    && book.changes[i].appliedAt.None? && book.changes[i].cancelledAt.None?
  }

  /** A request is refused for its chain, its address, as no change, or because one is pending, in this order. */
  lemma RequestRefused(book: Book, slot: Slot, supported: bool, address: Option<string>, i: nat)
    requires i == CurrentOf(book.addresses, slot)
    ensures i < |book.addresses| ==> IsCurrent(book, slot, i)
    ensures i == |book.addresses| ==> forall k :: !IsCurrent(book, slot, k)
    ensures var refusal := RequestRefusal(book, slot, supported, address);
            var same := address.Some? && i < |book.addresses| && book.addresses[i].address == address.value;
            && (refusal == Some(UnsupportedChain) <==> !supported)
            && (refusal == Some(InvalidAddress) <==> supported && address.None?)
            && (refusal == Some(Unchanged) <==> supported && same)
            && (refusal == Some(ChangeAlreadyPending) <==>
                  supported && address.Some? && !same && exists k :: StillPending(book, slot, k))
            && (refusal.None? <==>
                  supported && address.Some? && !same && forall k :: !StillPending(book, slot, k))
  {
    if HasOutstanding(book.changes, slot) {
      var k :| 0 <= k < |book.changes| && book.changes[k].slot == slot && Outstanding(book.changes[k]);
      assert StillPending(book, slot, k);
    } else {
      forall k ensures !StillPending(book, slot, k) {}
    }
  }

  /** The first address of a slot is active at once; another is a change that takes effect after the delay. */
  lemma Requested(book: Book, slot: Slot, address: string, delay: nat, now: Time)
    ensures var after, i := Request(book, slot, address, delay, now), CurrentOf(book.addresses, slot);
            if i == |book.addresses| then
              && after.changes == book.changes && |after.addresses| == |book.addresses| + 1
              && after.addresses[..|book.addresses|] == book.addresses
              && var row := after.addresses[|book.addresses|];
                 && row.slot == slot && row.address == address && row.activeFrom == now
                 && row.supersededAt.None? && row.changeId.None?
            else
              && after.addresses == book.addresses && |after.changes| == |book.changes| + 1
              && after.changes[..|book.changes|] == book.changes
              && var change := after.changes[|book.changes|];
                 && change.slot == slot && change.address == address && change.replacedId == i
                 && change.requestedAt == now && change.effectiveAt == now + delay
                 && change.appliedAt.None? && change.cancelledAt.None?
  {}

  /** Only the organisation's own change can be cancelled, once, and not when it has taken effect. */
  lemma CancelRefused(book: Book, organization: string, id: nat)
    ensures var refusal := CancelRefusal(book, organization, id);
            var known := id < |book.changes| && book.changes[id].slot.organization == organization;
            && (refusal == Some(NotFound) <==> !known)
            && (refusal == Some(AlreadyCancelled) <==> known && book.changes[id].cancelledAt.Some?)
            && (refusal == Some(AlreadyApplied) <==>
                  known && book.changes[id].cancelledAt.None? && book.changes[id].appliedAt.Some?)
            && (refusal.None? <==>
                  known && book.changes[id].cancelledAt.None? && book.changes[id].appliedAt.None?)
  {}

  /** A cancellation marks the change with its time, and touches nothing else. */
  lemma CancelledChange(book: Book, id: nat, now: Time)
    requires id < |book.changes|
    ensures var after := Cancel(book, id, now);
            && after.addresses == book.addresses && |after.changes| == |book.changes|
            && (forall k :: 0 <= k < |book.changes| && k != id ==> after.changes[k] == book.changes[k])
            && after.changes[id] == book.changes[id].(cancelledAt := Some(now))
  {}

  /** A change is due once its time has come, unless it was applied or cancelled. */
  lemma DueIs(change: Change, now: Time)
    ensures Due(change, now) <==> change.appliedAt.None? && change.cancelledAt.None? && now >= change.effectiveAt
  {}

  /** Taking effect: the address named is superseded, the new one active, and the change applied, all at one moment. */
  lemma AppliedChange(book: Book, id: nat, now: Time)
    requires id < |book.changes|
    ensures var after, change := ApplyChange(book, id, now), book.changes[id];
            && |after.addresses| == |book.addresses| + 1 && |after.changes| == |book.changes|
            && (forall k :: 0 <= k < |book.addresses| ==>
                  after.addresses[k] ==
                  if k == change.replacedId && book.addresses[k].supersededAt.None?
                  then book.addresses[k].(supersededAt := Some(now)) else book.addresses[k])
            && (forall k :: 0 <= k < |book.changes| && k != id ==> after.changes[k] == book.changes[k])
            && after.changes[id] == change.(appliedAt := Some(now))
            && var row := after.addresses[|book.addresses|];
               && row.slot == change.slot && row.address == change.address && row.activeFrom == now
               && row.supersededAt.None? && row.changeId == Some(id)
  {}

  /** An address was active from its start until it was superseded. */
  lemma ActiveIs(row: AddressRow, slot: Slot, t: Time)
    ensures ActiveAt(row, slot, t) <==>
              row.slot == slot && row.activeFrom <= t && (row.supersededAt.None? || t < row.supersededAt.value)
  {}
}
