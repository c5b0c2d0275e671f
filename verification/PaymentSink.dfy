/**
 The services that crediting is made of, over one set of tables: `DatabasePaymentSink`, the
 commission ledger it writes to, the reconciliation queue and the expiry job. Every call is one
 event of `CreditingRuns`, so what those runs keep, the tables keep.
 */
module PaymentSinks {
  import opened Options
  import opened PooledMatching
  import opened CreditingState
  import opened CreditingRuns
  import opened CreditingSafety
  import opened WhiteSpace
  import Rules = CreditingRules
  import Tables = CreditingState

  const EXPIRY_BATCH := 500

  datatype LedgerError = NoteRequired | ZeroAmount

  class PaymentSink {
    var invoices: map<Id, Invoice>
    var payments: seq<PaymentRow>
    var parked: map<TransferKey, ParkedRow>
    var ledger: seq<Entry>
    /** Whether there is a queue to park strays in. */
    var unmatched: bool

    const ledgerWired: bool
    const catalogue: map<string, Asset>
    /** How many confirmations a chain asks of a transfer worth so much. */
    const needed: (Chain, nat) -> nat

    function State(): World
      reads this
    {
      World(invoices, payments, parked, ledger)
    }

    function Cfg(): Config
      reads this
    {
      Config(ledgerWired, unmatched, catalogue)
    }

    ghost predicate Valid()
      reads this
    {
      Inv(Cfg(), State()) && Finite()
    }

    /** A transfer with as many confirmations as there are numbers has enough of them. */
    ghost predicate Finite() {
      forall chain, value :: needed(chain, value) <= MAX_SAFE_INTEGER
    }

    constructor (ledgerWired: bool, catalogue: map<string, Asset>, needed: (Chain, nat) -> nat)
      requires forall chain, value :: needed(chain, value) <= MAX_SAFE_INTEGER
      ensures Valid() && State() == EMPTY && !unmatched
      ensures this.ledgerWired == ledgerWired && this.catalogue == catalogue && this.needed == needed
    {
      this.ledgerWired, this.catalogue, this.needed := ledgerWired, catalogue, needed;
      invoices, payments, parked, ledger, unmatched := map[], [], map[], [], false;
      new;
      EmptyTables(Cfg());
    }

    /** From here on, strays are parked rather than refused. */
    method ParkUnmatchedIn()
      requires Valid()
      modifies `unmatched
      ensures Valid() && State() == old(State()) && unmatched
    {
      unmatched := true;
      assert Conserved(Cfg(), State()) by { assert Conserved(old(Cfg()), State()); }
    }

    // ── Totals and statuses ──────────────────────────────────────────────────

    method AmountPaid(id: Id) returns (total: nat)
      ensures total == Tables.AmountPaid(payments, id)
    {
      total := 0;
      for i := 0 to |payments|
        invariant total == Tables.AmountPaid(payments[..i], id)
      {
        assert payments[..i + 1][..i] == payments[..i];
        if payments[i].invoiceId == id && !payments[i].reversed {
          var counted := if payments[i].creditedAmount.Some? then payments[i].creditedAmount.value
                         else payments[i].amount;
          total := total + counted;
        }
      }
      assert payments[..|payments|] == payments;
    }

    method Recompute(id: Id) returns (status: Status)
      modifies `invoices
      ensures State() == Tables.Recompute(old(State()), id)
      ensures status == if id in invoices then invoices[id].status else Status.Pending
    {
      if id !in invoices { return Status.Pending; }
      var invoice := invoices[id];
      var total := AmountPaid(id);
      var due := invoice.terms.amountDue;
      var tolerance := due * invoice.terms.toleranceBps / 10000;
      if total == 0 {
        status := if invoice.status == Expired then Expired else Status.Pending;
      } else if total < due - tolerance {
        status := Underpaid;
      } else if total > due + tolerance {
        status := Overpaid;
      } else {
        status := Paid;
      }
      var paidOnce := invoice.paidOnce || status == Paid;
      invoices := invoices[id := invoice.(amountPaid := total, status := status, paidOnce := paidOnce)];
    }

    // ── The ledger ───────────────────────────────────────────────────────────

    method Accrue(terms: Terms, p: PaymentRow)
      requires p.valueUsdMicros.Some?
      modifies `ledger
      ensures ledger == Tables.Accrue(old(ledger), terms, p)
    {
      if terms.accruedFeeBps == 0 || p.valueUsdMicros.value == 0 { return; }
      var commission := Share(p.valueUsdMicros, terms.accruedFeeBps);
      if commission == 0 { return; }
      if !HasEntry(ledger, p.key, Accrual) {
        ledger := ledger + [Entry(terms.organization, Accrual, -commission, Some(p.key))];
      }
    }

    method Recover(terms: Terms, p: PaymentRow)
      requires p.valueUsdMicros.Some?
      modifies `ledger
      ensures ledger == Tables.Recover(old(ledger), terms, p)
    {
      if terms.recoveryBps == 0 || p.valueUsdMicros.value == 0 { return; }
      var recovered := Share(p.valueUsdMicros, terms.recoveryBps);
      if recovered == 0 { return; }
      if !HasEntry(ledger, p.key, Recovery) {
        ledger := ledger + [Entry(terms.organization, Recovery, recovered, Some(p.key))];
      }
    }

    method ReverseAccrual(organization: Organization, key: TransferKey)
      modifies `ledger
      ensures ledger == Tables.ReverseAccrual(old(ledger), organization, key)
    {
      var i := 0;
      while i < |ledger| && !(ledger[i].payment == Some(key) && ledger[i].kind == Accrual)
        invariant i <= |ledger| && Accrued(ledger, key) == Accrued(ledger[i..], key)
      {
        assert ledger[i..][1..] == ledger[i + 1..];
        i := i + 1;
      }
      if i == |ledger| { return; }
      if !HasEntry(ledger, key, AccrualReversed) {
        ledger := ledger + [Entry(organization, AccrualReversed, -ledger[i].amount, Some(key))];
      }
    }

    /** What an organisation's entries sum to. */
    method Balance(organization: Organization) returns (total: int)
      ensures total == CreditingRuns.Balance(ledger, organization)
    {
      total := 0;
      for i := 0 to |ledger|
        invariant total == CreditingRuns.Balance(ledger[..i], organization)
      {
        assert ledger[..i + 1][..i] == ledger[..i];
        if ledger[i].organization == organization { total := total + ledger[i].amount; }
      }
      assert ledger[..|ledger|] == ledger;
    }

    /** A settlement or an adjustment, entered by a person with a reason. */
    method Record(organization: Organization, kind: EntryKind, amount: int,
        note: string) returns (error: Option<LedgerError>)
      requires Valid() && kind in {Settlement, Adjustment}
      modifies `ledger
      ensures Valid()
      ensures error == if amount == 0 then Some(ZeroAmount) else if Blank(note) then Some(NoteRequired) else None
      ensures error.Some? ==> State() == old(State())
      ensures error.None? ==> Performed(Cfg(), old(State()), Statement(organization, kind, amount), State())
      ensures error.None? ==> ledger == old(ledger) + [Entry(organization, kind, amount, None)]
    {
      if amount == 0 { return Some(ZeroAmount); }
      if Blank(note) { return Some(NoteRequired); }
      StepKeepsInv(Cfg(), State(), Statement(organization, kind, amount));
      ledger := ledger + [Entry(organization, kind, amount, None)];
      error := None;
    }

    // ── Whose payment a transfer is ──────────────────────────────────────────

    /** The open or recently closed invoices at an address, in whatever order they come. */
    method CandidateRows(chain: Chain, address: string, now: Time) returns (rows: seq<CandidateInvoice>)
      ensures DistinctIds(rows) && Elements(rows) == CandidatesAt(State(), chain, address, now)
    {
      rows := [];
      var left := set id | id in invoices && AtAddress(invoices[id], chain, address) && Recent(invoices[id], now);
      ghost var all := left;
      while left != {}
        invariant left <= all && DistinctIds(rows)
        invariant forall c :: c in rows <==> exists id :: id in all && id !in left && c == AsCandidate(id, invoices[id])
        invariant forall i :: 0 <= i < |rows| ==> rows[i].id in all && rows[i].id !in left
      {
        var id :| id in left;
        rows := rows + [AsCandidate(id, invoices[id])];
        left := left - {id};
      }
    }

    ghost predicate PriorAmong(some: seq<PaymentRow>, chain: Chain, address: string, now: Time, p: PriorPayment)
      reads this
    {
      exists row :: row in some && IsPrior(State(), chain, address, now, row) && p == AsPrior(row)
    }

    /** The unreversed payments of the last day to those invoices. */
    method PriorRows(chain: Chain, address: string, now: Time) returns (rows: seq<PriorPayment>)
      ensures Elements(rows) == PriorsAt(State(), chain, address, now)
    {
      rows := [];
      for i := 0 to |payments|
        invariant forall p :: p in rows <==> PriorAmong(payments[..i], chain, address, now, p)
      {
        if IsPrior(State(), chain, address, now, payments[i]) {
          rows := rows + [AsPrior(payments[i])];
        }
      }
    }

    method MatchPooled(t: Transfer, seenAt: Time, now: Time) returns (target: Target)
      ensures target == PooledTarget(State(), t, seenAt, now)
    {
      var already := PlaceOf(payments, t.key);
      if already < |payments| && payments[already].invoiceId in invoices {
        return ToInvoice(payments[already].invoiceId, Replay, true);
      }
      var candidates := CandidateRows(t.key.chain, t.to, now);
      var priors := PriorRows(t.key.chain, t.to, now);
      var seen := ObservedTransfer(t.amount, t.asset.decimals, t.asset.key, t.from, seenAt);
      DecisionIsOrderFree(seen, now, candidates, priors);
      match DecidePooled(seen, now, candidates, priors)
      case Park(reason) => target := ToPark(reason);
      case Credit(id, rule, same) =>
        target := if id in invoices then ToInvoice(id, ByRule(rule), same) else ToPark(Ambiguous);
    }

    method Match(t: Transfer, seenAt: Time, now: Time) returns (target: Target)
      ensures Matches(State(), t, seenAt, now, target)
    {
      if t.memo.Some? && t.memo.value != "" {
        var byMemo := InvoicesWithMemo(State(), t.key.chain, t.memo.value);
        if byMemo != {} {
          var id :| id in byMemo;
          return ToInvoice(id, ByMemo, true);
        }
      }
      var here := InvoicesAt(State(), t.key.chain, t.to);
      if here == {} { return ToPark(NoMatchingAddress); }
      var any :| any in here;
      if invoices[any].terms.model == Pooled {
        target := MatchPooled(t, seenAt, now);
      } else {
        var id :| id in here;
        target := ToInvoice(id, ByAddress, true);
      }
      assert TargetBy(State(), t, seenAt, now, any, target);
    }

    // ── Crediting ────────────────────────────────────────────────────────────

    method Park(t: Transfer, reason: UnmatchedReason, now: Time)
      modifies `parked
      ensures State() == ParkTransfer(Cfg(), old(State()), t, reason, now)
    {
      if t.key in parked { return; }
      var asset := if t.asset.key in catalogue then Some(catalogue[t.asset.key]) else None;
      parked := parked[t.key := ParkedRow(t.amount, asset, t.to, t.from, reason, Resolution.Pending, now)];
    }

    method ResolveParked(key: TransferKey, id: Id)
      modifies `parked
      ensures State() == Tables.ResolveParked(old(State()), key, id)
    {
      if key in parked && parked[key].resolution == Resolution.Pending {
        parked := parked[key := parked[key].(resolution := Attached(id))];
      }
    }

    /** A transfer nobody can be credited with: `Rejected` when there is nowhere to park it. */
    method Stray(t: Transfer, reason: UnmatchedReason, fromQueue: bool, now: Time) returns (outcome: Outcome)
      modifies `parked
      ensures Processed(State(), outcome) == Unattributed(Cfg(), old(State()), t, reason, fromQueue, now)
    {
      if fromQueue { return Unmatched; }
      if !unmatched { return Rejected; }
      Park(t, reason, now);
      outcome := Unmatched;
    }

    method PostEntries(terms: Terms, p: PaymentRow)
      modifies `ledger
      ensures ledger ==
              if ledgerWired then Tables.Recover(Tables.Accrue(old(ledger), terms, p), terms, p) else old(ledger)
    {
      if ledgerWired && p.valueUsdMicros.Some? {
        if terms.accruedFeeBps > 0 { Accrue(terms, p); }
        if terms.recoveryBps > 0 { Recover(terms, p); }
      }
    }

    method InsertPayment(p: PaymentRow)
      requires p.invoiceId in invoices
      modifies `invoices, `payments, `ledger
      ensures State() == Insert(Cfg(), old(State()), p)
    {
      payments := payments + [p];
      PostEntries(invoices[p.invoiceId].terms, p);
      var _ := Recompute(p.invoiceId);
    }

    /** What the price source and the chain's policy say of a transfer to an invoice in this token. */
    function Valuation(t: Transfer, price: Transfer -> Option<nat>, unitPrice: Asset -> Option<nat>,
        asset: Asset): Quote {
      var value := price(t);
      Quote(value, unitPrice(asset), needed(t.key.chain, if value.Some? then value.value else 0))
    }

    method Process(t: Transfer, price: Transfer -> Option<nat>, unitPrice: Asset -> Option<nat>, seenAt: Time,
        fromQueue: bool, now: Time)
      returns (outcome: Outcome, ghost quote: Quote, ghost target: Target)
      modifies `invoices, `payments, `ledger, `parked
      ensures Matches(old(State()), t, seenAt, now, target)
      ensures target.ToInvoice? ==> target.invoiceId in old(invoices)
      ensures quote.valueUsdMicros == price(t)
      ensures quote.needed == needed(t.key.chain, if price(t).Some? then price(t).value else 0)
      ensures target.ToInvoice? ==> quote.unitUsdMicros == unitPrice(old(invoices)[target.invoiceId].terms.asset)
      ensures Processed(State(), outcome) == Tables.Process(Cfg(), old(State()), t, quote, fromQueue, now, target)
    {
      var found := Match(t, seenAt, now);
      target := found;
      match found
      case ToPark(reason) =>
        quote := Valuation(t, price, unitPrice, t.asset);
        outcome := Stray(t, reason, fromQueue, now);
      case ToInvoice(id, _, same) =>
        MatchesAnInvoice(State(), t, seenAt, now, target);
        var invoice := invoices[id];
        var valuation := Valuation(t, price, unitPrice, invoice.terms.asset);
        quote := valuation;
        if t.confirmations < valuation.needed {
          if invoice.status == Status.Pending { invoices := invoices[id := invoice.(status := Confirming)]; }
          return Deferred, quote, target;
        }
        var creditedAmount := None;
        if !same {
          creditedAmount := Convert(valuation, invoice.terms.asset.decimals);
          if creditedAmount.None? {
            outcome := Stray(t, WrongAsset, fromQueue, now);
            return;
          }
        }
        if HasPayment(payments, t.key) {
          if fromQueue { ResolveParked(t.key, id); }
          return Duplicate, quote, target;
        }
        InsertPayment(NewPayment(t, id, creditedAmount, valuation, now));
        if fromQueue { ResolveParked(t.key, id); }
        outcome := Credited;
    }

    /** A transfer the watcher saw: one `Present` event. */
    method Credit(t: Transfer, price: Transfer -> Option<nat>, unitPrice: Asset -> Option<nat>, now: Time)
      returns (outcome: Outcome, ghost ev: Event)
      requires Valid()
      modifies `invoices, `payments, `ledger, `parked
      ensures Valid()
      ensures ev.Present? && ev.t == t && ev.now == now && ev.quote.valueUsdMicros == price(t)
      ensures ev.quote.needed == needed(t.key.chain, if price(t).Some? then price(t).value else 0)
      ensures Performed(Cfg(), old(State()), ev, State())
      ensures outcome == Tables.Process(Cfg(), old(State()), t, ev.quote, false, now, ev.target).outcome
      ensures outcome != Credited ==> payments == old(payments)
      ensures outcome == Credited ==>
             ev.target.ToInvoice? && Rules.RecordedLast(old(payments), payments, t, ev.quote, now, ev.target)
    {
      ghost var quote, target;
      outcome, quote, target := Process(t, price, unitPrice, now, false, now);
      ev := Present(t, quote, now, target);
      StepKeepsInv(old(Cfg()), old(State()), ev);
      Rules.PresentedRows(Cfg(), old(State()), t, quote, now, target);
    }

    // ── Reversals, operators and expiry ──────────────────────────────────────

    method Withdraw(key: TransferKey)
      modifies `invoices, `payments, `ledger
      ensures State() == Tables.Reverse(Cfg(), old(State()), key)
    {
      var i := PlaceOf(payments, key);
      if i == |payments| || payments[i].reversed { return; }
      var id := payments[i].invoiceId;
      payments := payments[i := payments[i].(reversed := true)];
      var _ := Recompute(id);
      if id in invoices && ledgerWired { ReverseAccrual(invoices[id].terms.organization, key); }
    }

    method Reverse(key: TransferKey)
      requires Valid()
      modifies `invoices, `payments, `ledger
      ensures Valid() && Performed(Cfg(), old(State()), Reversal(key), State())
    {
      StepKeepsInv(Cfg(), State(), Reversal(key));
      Withdraw(key);
    }

    /** The payment and the resolved row, in one transaction, then the invoice's total and status. */
    method InsertAttached(key: TransferKey, id: Id, now: Time) returns (status: Status)
      requires AttachRefusal(State(), key, id).None?
      modifies `invoices, `payments, `parked
      ensures State() == Tables.Attach(old(State()), key, id, now)
      ensures id in invoices && status == invoices[id].status
    {
      var row := parked[key];
      payments := payments + [PaymentRow(key, id, row.amount, None, row.from, None, now, false)];
      parked := parked[key := row.(resolution := Attached(id))];
      status := Recompute(id);
    }

    method TryAttach(key: TransferKey, id: Id, now: Time) returns (error: Option<AttachError>, status: Status)
      modifies `invoices, `payments, `parked
      ensures error == AttachRefusal(old(State()), key, id)
      ensures State() == if error.Some? then old(State()) else Tables.Attach(old(State()), key, id, now)
      ensures error.None? ==> id in invoices && status == invoices[id].status
    {
      status := Status.Pending;
      if key !in parked { return Some(NotFound), status; }
      if parked[key].resolution != Resolution.Pending { return Some(AlreadyResolved), status; }
      if id !in invoices { return Some(InvoiceNotFound), status; }
      if invoices[id].terms.chain != key.chain { return Some(ChainMismatch), status; }
      if HasPayment(payments, key) { return Some(AlreadyCredited), status; }
      status := InsertAttached(key, id, now);
      error := None;
    }

    method Attach(key: TransferKey, id: Id, now: Time) returns (error: Option<AttachError>, status: Status)
      requires Valid()
      modifies `invoices, `payments, `parked
      ensures Valid() && error == AttachRefusal(old(State()), key, id)
      ensures error.Some? ==> State() == old(State())
      ensures error.None? ==> Performed(Cfg(), old(State()), Attachment(key, id, now), State())
      ensures error.None? ==> id in invoices && status == invoices[id].status
    {
      error, status := TryAttach(key, id, now);
      AttachStep(Cfg(), old(State()), key, id, now, State());
    }

    method ResolveWithout(key: TransferKey, resolution: Resolution) returns (error: Option<AttachError>)
      requires Valid() && resolution in {Returned, Ignored}
      modifies `parked
      ensures Valid()
      ensures error == if key !in old(parked) then Some(NotFound)
                       else if old(parked)[key].resolution != Resolution.Pending then Some(AlreadyResolved) else None
      ensures error.Some? ==> State() == old(State())
      ensures error.None? ==> Performed(Cfg(), old(State()), Resolve(key, resolution), State())
      ensures error.None? ==> parked == old(parked)[key := old(parked)[key].(resolution := resolution)]
    {
      StepKeepsInv(Cfg(), State(), Resolve(key, resolution));
      if key !in parked { return Some(NotFound); }
      if parked[key].resolution != Resolution.Pending { return Some(AlreadyResolved); }
      parked := parked[key := parked[key].(resolution := resolution)];
      error := None;
    }

    // ── The sweep ────────────────────────────────────────────────────────────

    /** A stray seen no later than any other of them. */
    method Oldest(strays: set<TransferKey>) returns (key: TransferKey)
      requires strays != {} && strays <= parked.Keys
      ensures key in strays && forall k :: k in strays ==> parked[key].seenAt <= parked[k].seenAt
    {
      key :| key in strays;
      var left := strays;
      while left != {}
        invariant left <= strays && key in strays
        invariant forall k :: k in strays && k !in left ==> parked[key].seenAt <= parked[k].seenAt
      {
        var k :| k in left;
        if parked[k].seenAt < parked[key].seenAt { key := k; }
        left := left - {k};
      }
    }

    /** The oldest pending strays at shared wallets, oldest first. */
    method PendingStrays(limit: nat) returns (rows: seq<TransferKey>)
      ensures |rows| <= limit && Distinct(rows)
      ensures forall key :: key in rows ==> key in parked && IsStray(parked[key])
      ensures forall i, j :: 0 <= i < j < |rows| ==>
             rows[i] in parked && rows[j] in parked && parked[rows[i]].seenAt <= parked[rows[j]].seenAt
      ensures forall key :: key in parked && IsStray(parked[key]) && key !in rows ==> |rows| == limit
      ensures forall key, k :: key in parked && IsStray(parked[key]) && key !in rows && k in rows ==>
                (k in parked && parked[k].seenAt <= parked[key].seenAt)
    {
      rows := [];
      var left := set key | key in parked && IsStray(parked[key]);
      while left != {} && |rows| < limit
        invariant |rows| <= limit && Distinct(rows) && left <= parked.Keys
        invariant forall key :: key in parked && IsStray(parked[key]) <==> key in rows || key in left
        invariant forall key :: key in rows ==> key !in left
        invariant forall i, j :: 0 <= i < j < |rows| ==> parked[rows[i]].seenAt <= parked[rows[j]].seenAt
        invariant forall k, key :: k in rows && key in left ==> parked[k].seenAt <= parked[key].seenAt
      {
        var key := Oldest(left);
        rows := rows + [key];
        left := left - {key};
      }
    }

    /** A parked transfer examined again: one `Sweep` event. */
    method Reexamine(key: TransferKey, price: Transfer -> Option<nat>, unitPrice: Asset -> Option<nat>, now: Time,
                     ghost start: World, ghost events: seq<Event>)
      returns (outcome: Outcome, ghost ev: Event)
      requires Finite() && key in parked && Sweepable(parked[key])
      requires Ran(Cfg(), start, events, State())
      modifies `invoices, `payments, `ledger, `parked
      ensures Ran(Cfg(), start, events + [ev], State()) && ev.Sweep? && ev.key == key && ev.now == now
      ensures OnlyRow(key, old(parked), parked)
      ensures parked[key].resolution.Attached? <==> outcome in {Credited, Duplicate}
    {
      var row := parked[key];
      ghost var quote, target;
      outcome, quote, target := Process(Unparked(key, row), price, unitPrice, row.seenAt, true, now);
      ev := Sweep(key, quote, now, target);
      FromQueueTouchesOneRow(Cfg(), old(State()), Unparked(key, row), quote, now, target);
      RanNext(Cfg(), start, events, old(State()), ev, State());
    }

    /** One row of a sweep: left as it is when its token is not in the catalogue. */
    method ExamineRow(key: TransferKey, price: Transfer -> Option<nat>, unitPrice: Asset -> Option<nat>, now: Time,
                      ghost start: World, ghost events: seq<Event>, ghost rows: seq<TransferKey>)
      returns (credited: bool, ghost after: seq<Event>)
      requires Finite() && key in parked && IsStray(parked[key])
      requires Ran(Cfg(), start, events, State())
      modifies `invoices, `payments, `ledger, `parked
      ensures Ran(Cfg(), start, after, State())
      ensures SweepsOf(events, rows, now) && key in rows ==> SweepsOf(after, rows, now)
      ensures OnlyRow(key, old(parked), parked) && (parked[key].resolution.Attached? <==> credited)
    {
      credited, after := false, events;
      if parked[key].asset.Some? {
        ghost var ev;
        var outcome;
        outcome, ev := Reexamine(key, price, unitPrice, now, start, events);
        credited, after := outcome in {Credited, Duplicate}, events + [ev];
      }
    }

    /** The rows examined one after the other, and how many of them were credited. */
    method SweepRows(rows: seq<TransferKey>, price: Transfer -> Option<nat>, unitPrice: Asset -> Option<nat>, now: Time)
      returns (credited: nat, ghost events: seq<Event>)
      requires Finite() && Distinct(rows)
      requires forall key :: key in rows ==> key in parked && IsStray(parked[key])
      modifies `invoices, `payments, `ledger, `parked
      ensures Ran(Cfg(), old(State()), events, State())
      ensures forall key :: key in rows ==> key in parked
      ensures credited == |AttachedOf(rows, parked)|
      ensures SweepsOf(events, rows, now)
    {
      credited, events := 0, [];
      ghost var start, attached: set<TransferKey> := State(), {};
      for i := 0 to |rows|
        invariant Ran(Cfg(), start, events, State())
        invariant SweptSoFar(rows, i, start.parked, parked, attached) && credited == |attached|
        invariant SweepsOf(events, rows, now)
      {
        var key := rows[i];
        ghost var before := parked;
        var attachedNow;
        attachedNow, events := ExamineRow(key, price, unitPrice, now, start, events, rows);
        attached := SweepOne(rows, i, start.parked, before, parked, attached);
        if attachedNow { credited := credited + 1; }
      }
      SweptAll(rows, start.parked, parked, attached);
    }

    method SweepParked(price: Transfer -> Option<nat>, unitPrice: Asset -> Option<nat>, now: Time, limit: nat)
      returns (examined: nat, credited: nat, ghost swept: seq<TransferKey>, ghost events: seq<Event>)
      requires Valid()
      modifies `invoices, `payments, `ledger, `parked
      ensures Valid() && Ran(Cfg(), old(State()), events, State())
      ensures examined == |swept| <= limit && Distinct(swept)
      ensures forall key :: key in swept ==> key in parked
      ensures credited == |AttachedOf(swept, parked)|
      ensures SweepsOf(events, swept, now)
      ensures forall key :: key in old(parked) && IsStray(old(parked)[key]) && key !in swept ==> examined == limit
    {
      var rows := PendingStrays(limit);
      credited, events := SweepRows(rows, price, unitPrice, now);
      examined, swept := |rows|, rows;
      RunKeepsInv(Cfg(), old(State()), events);
    }

    // ── Expiry ───────────────────────────────────────────────────────────────

    /** At most a batch of the invoices that are due. */
    method DueBatch(now: Time) returns (batch: set<Id>)
      ensures forall id :: id in batch ==> id in invoices && Due(invoices[id], now)
      ensures |batch| <= EXPIRY_BATCH
      ensures forall id :: id in invoices && Due(invoices[id], now) && id !in batch ==> |batch| == EXPIRY_BATCH
    {
      var due := set id | id in invoices && Due(invoices[id], now);
      ghost var all := due;
      batch := {};
      while due != {} && |batch| < EXPIRY_BATCH
        invariant |batch| <= EXPIRY_BATCH && batch !! due && batch + due == all
      {
        var id :| id in due;
        batch, due := batch + {id}, due - {id};
      }
    }

    /** Closes what is past its deadline, a batch at a time. */
    method ExpireInvoices(now: Time) returns (count: nat, ghost closed: set<Id>)
      requires Valid()
      modifies `invoices
      ensures Valid() && Performed(Cfg(), old(State()), Expiry(now, closed), State())
      ensures count == |closed| <= 500
      ensures forall id :: id in old(invoices) && Due(old(invoices)[id], now) && id !in closed ==> count == 500
    {
      var batch := DueBatch(now);
      closed, count := batch, |batch|;
      StepKeepsInv(Cfg(), State(), Expiry(now, closed));
      invoices := map id | id in invoices ::
        if id in batch then invoices[id].(status := Expired, referenceActive := false) else invoices[id];
    }
  }

  /** The first n rows are done, with these attached, and the others are as they were. */
  ghost predicate SweptSoFar(rows: seq<TransferKey>, n: nat, before: map<TransferKey, ParkedRow>,
                             parked: map<TransferKey, ParkedRow>, attached: set<TransferKey>)
    requires n <= |rows|
  {
    && (forall j :: n <= j < |rows| ==> rows[j] in before && IsStray(before[rows[j]]))
    && (forall j :: n <= j < |rows| ==> rows[j] in parked && parked[rows[j]] == before[rows[j]])
    && (forall j :: 0 <= j < n ==> rows[j] in parked && (parked[rows[j]].resolution.Attached? <==> rows[j] in attached))
    && (forall key :: key in attached ==> exists j :: 0 <= j < n && rows[j] == key)
  }

  /** No other row changed. */
  ghost predicate OnlyRow(key: TransferKey, before: map<TransferKey, ParkedRow>, after: map<TransferKey, ParkedRow>) {
    key in after && forall k :: k != key && k in before ==> k in after && after[k] == before[k]
  }

  lemma SweepOne(rows: seq<TransferKey>, i: nat, start: map<TransferKey, ParkedRow>,
      before: map<TransferKey, ParkedRow>, after: map<TransferKey, ParkedRow>, attached: set<TransferKey>)
    returns (grown: set<TransferKey>)
    requires i < |rows| && Distinct(rows) && SweptSoFar(rows, i, start, before, attached)
    requires OnlyRow(rows[i], before, after)
    ensures SweptSoFar(rows, i + 1, start, after, grown)
    ensures |grown| == |attached| + if after[rows[i]].resolution.Attached? then 1 else 0
  {
    grown := if after[rows[i]].resolution.Attached? then attached + {rows[i]} else attached;
    assert rows[i] !in attached;
    forall j | 0 <= j < |rows| && j != i ensures rows[j] in after && after[rows[j]] == before[rows[j]] {}
  }

  lemma SweptAll(rows: seq<TransferKey>, start: map<TransferKey, ParkedRow>, parked: map<TransferKey, ParkedRow>,
      attached: set<TransferKey>)
    requires SweptSoFar(rows, |rows|, start, parked, attached)
    ensures attached == AttachedOf(rows, parked) && forall key :: key in rows ==> key in parked
  {}

  /** Which of these parked transfers are marked attached. */
  ghost function AttachedOf(keys: seq<TransferKey>, parked: map<TransferKey, ParkedRow>): set<TransferKey> {
    set key | key in keys && key in parked && parked[key].resolution.Attached?
  }

  /** All of them are sweeps of these rows at this moment. */
  ghost predicate SweepsOf(events: seq<Event>, rows: seq<TransferKey>, now: Time) {
    forall ev :: ev in events ==> ev.Sweep? && ev.now == now && ev.key in rows
  }

  /** Pending, and at a shared wallet. */
  predicate IsStray(row: ParkedRow) {
    row.resolution == Resolution.Pending && row.reason != NoMatchingAddress
  }

  /** It was matched to an address, and waits for a token's price, another invoice or an operator. */
  lemma StraysAre(row: ParkedRow)
    ensures IsStray(row) <==>
              row.resolution == Resolution.Pending && row.reason in {WrongAsset, InvoiceExpired, Ambiguous}
  {}

  ghost predicate Distinct(keys: seq<TransferKey>) {
    forall i, j :: 0 <= i < j < |keys| ==> keys[i] != keys[j]
  }

  function AsPrior(row: PaymentRow): PriorPayment {
    PriorPayment(row.invoiceId, row.from, row.creditedAt)
  }

  /** Whatever becomes of a parked transfer, only its own row changes: marked attached, or not at all. */
  lemma FromQueueTouchesOneRow(cfg: Config, w: World, t: Transfer, quote: Quote, now: Time, target: Target)
    requires target.ToInvoice? ==> target.invoiceId in w.invoices
    requires t.key in w.parked && w.parked[t.key].resolution == Resolution.Pending
    ensures var p := Process(cfg, w, t, quote, true, now, target);
            && t.key in p.world.parked
            && (p.world.parked[t.key].resolution.Attached? <==> p.outcome in {Credited, Duplicate})
            && forall k :: k != t.key && k in w.parked ==> k in p.world.parked && p.world.parked[k] == w.parked[k]
  {
    if target.ToInvoice? {
      var converted := if target.sameAsset then None
        else Convert(quote, w.invoices[target.invoiceId].terms.asset.decimals);
      InsertLeavesQueue(cfg, w, NewPayment(t, target.invoiceId, converted, quote, now));
    }
  }

  lemma AttachStep(cfg: Config, w: World, key: TransferKey, id: Id, now: Time, w': World)
    requires Inv(cfg, w)
    requires w' == if AttachRefusal(w, key, id).Some? then w else Attach(w, key, id, now)
    ensures Inv(cfg, w') && (AttachRefusal(w, key, id).None? ==> Performed(cfg, w, Attachment(key, id, now), w'))
  {
    StepKeepsInv(cfg, w, Attachment(key, id, now));
  }

  /** These calls, in this order, are what happened to the tables. */
  ghost predicate Ran(cfg: Config, before: World, events: seq<Event>, after: World) {
    after == Run(cfg, before, events)
  }

  lemma RanNext(cfg: Config, before: World, events: seq<Event>, w: World, ev: Event, after: World)
    requires Ran(cfg, before, events, w) && Performed(cfg, w, ev, after)
    ensures Ran(cfg, before, events + [ev], after)
  {
    assert (events + [ev])[..|events|] == events;
  }

  /** The call was possible, and this is what it made of the tables. */
  ghost predicate Performed(cfg: Config, before: World, ev: Event, after: World) {
    Enabled(before, ev) && after == Next(cfg, before, ev)
  }
}
