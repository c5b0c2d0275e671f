/**
 Safety of crediting over whole runs: the invariants of `CreditingRuns` hold after every
 sequence of service calls, payment rows only ever gain a reversal mark, and presenting a
 transfer again changes nothing that counts.
 */
module CreditingSafety {
  import opened Options
  import opened PooledMatching
  import opened CreditingState
  import opened CreditingRuns

  /** Some invoice at the address is a shared wallet's. */
  ghost predicate PooledAddress(w: World, chain: Chain, address: string) {
    exists id :: id in InvoicesAt(w, chain, address) && w.invoices[id].terms.model == Pooled
  }

  /** The transfer went to a shared wallet, and no memo says otherwise: it is matched by the rules. */
  ghost predicate AtSharedWallet(w: World, t: Transfer) {
    && (t.memo.Some? && t.memo.value != "" ==> InvoicesWithMemo(w, t.key.chain, t.memo.value) == {})
    && PooledAddress(w, t.key.chain, t.to)
  }

  ghost predicate UniformModels(w: World) {
    forall a, b :: a in w.invoices && b in w.invoices
      && w.invoices[a].terms.chain == w.invoices[b].terms.chain
      && w.invoices[a].terms.depositAddress == w.invoices[b].terms.depositAddress
      ==> w.invoices[a].terms.model == w.invoices[b].terms.model
  }

  /** The transfer has a payment row, of that invoice. */
  ghost predicate PaysInvoice(payments: seq<PaymentRow>, key: TransferKey, id: Id) {
    HasPayment(payments, key) && payments[PlaceOf(payments, key)].invoiceId == id
  }

  /** A row marked attached is a payment of that invoice; one the sweep may take is at a shared wallet. */
  ghost predicate RowSound(w: World, key: TransferKey, row: ParkedRow) {
    && (row.resolution.Attached? ==> PaysInvoice(w.payments, key, row.resolution.invoiceId))
    && (row.reason != NoMatchingAddress ==> PooledAddress(w, key.chain, row.to))
  }

  ghost predicate QueueSound(w: World) {
    forall key :: key in w.parked ==> RowSound(w, key, w.parked[key])
  }

  ghost predicate Inv(cfg: Config, w: World) {
    Core(w) && Books(cfg, w) && UniformModels(w) && QueueSound(w)
  }

  /** Payment rows stay, with what they say, and a reversal is not undone. */
  ghost predicate PaymentsKept(before: seq<PaymentRow>, after: seq<PaymentRow>) {
    && |before| <= |after|
    && forall i :: 0 <= i < |before| ==>
         after[i] == before[i] || after[i] == before[i].(reversed := true)
  }

  lemma KeptPlace(before: seq<PaymentRow>, after: seq<PaymentRow>, key: TransferKey)
    requires PaymentsKept(before, after) && DistinctKeys(after) && HasPayment(before, key)
    ensures HasPayment(after, key) && PlaceOf(after, key) == PlaceOf(before, key)
    ensures after[PlaceOf(after, key)].invoiceId == before[PlaceOf(before, key)].invoiceId
  {
    assert after[PlaceOf(before, key)].key == key;
  }

  lemma KeptIsTransitive(a: seq<PaymentRow>, b: seq<PaymentRow>, c: seq<PaymentRow>)
    requires PaymentsKept(a, b) && PaymentsKept(b, c)
    ensures PaymentsKept(a, c)
  {}

  lemma FrameKeepsQueue(w: World, w': World)
    requires QueueSound(w) && w'.parked == w.parked && DistinctKeys(w'.payments)
    requires PaymentsKept(w.payments, w'.payments) && KeepsTerms(w.invoices, w'.invoices)
    ensures QueueSound(w')
  {
    forall key | key in w.parked ensures RowSound(w', key, w'.parked[key]) {
      RowStillSound(w, w', key, w.parked[key]);
    }
  }

  lemma RowStillSound(w: World, w': World, key: TransferKey, row: ParkedRow)
    requires RowSound(w, key, row) && DistinctKeys(w'.payments)
    requires PaymentsKept(w.payments, w'.payments) && KeepsTerms(w.invoices, w'.invoices)
    ensures RowSound(w', key, row)
  {
    if row.resolution.Attached? { KeptPlace(w.payments, w'.payments, key); }
    if row.reason != NoMatchingAddress {
      var id :| id in InvoicesAt(w, key.chain, row.to) && w.invoices[id].terms.model == Pooled;
      assert id in InvoicesAt(w', key.chain, row.to);
    }
  }

  /** One row of the queue changed, soundly. */
  lemma UpdateKeepsQueue(w: World, key: TransferKey, row: ParkedRow)
    requires QueueSound(w) && RowSound(w, key, row)
    ensures QueueSound(w.(parked := w.parked[key := row]))
  {
    var w' := w.(parked := w.parked[key := row]);
    forall k | k in w'.parked ensures RowSound(w', k, w'.parked[k]) {
      SameTablesSameRow(w, w', k, w'.parked[k]);
    }
  }

  lemma SameTablesSameRow(w: World, w': World, key: TransferKey, row: ParkedRow)
    requires RowSound(w, key, row) && w'.payments == w.payments && w'.invoices == w.invoices
    ensures RowSound(w', key, row)
  {
    if row.reason != NoMatchingAddress {
      var id :| id in InvoicesAt(w, key.chain, row.to) && w.invoices[id].terms.model == Pooled;
      assert id in InvoicesAt(w', key.chain, row.to);
    }
  }

  // ── What a target says about its transfer ──────────────────────────────────

  ghost predicate OnChain(w: World, id: Id, chain: Chain) {
    id in w.invoices && w.invoices[id].terms.chain == chain
  }

  lemma PooledTargetFacts(w: World, t: Transfer, seenAt: Time, now: Time)
    requires Core(w)
    ensures var target := PooledTarget(w, t, seenAt, now);
            && (target.ToInvoice? ==> OnChain(w, target.invoiceId, t.key.chain))
            && (target.ToPark? ==> target.reason in {InvoiceExpired, Ambiguous})
            && (HasPayment(w.payments, t.key) ==>
                  target == ToInvoice(w.payments[PlaceOf(w.payments, t.key)].invoiceId, Replay, true))
  {
    var seen := ObservedTransfer(t.amount, t.asset.decimals, t.asset.key, t.from, seenAt);
    var candidates := CandidatesAt(w, t.key.chain, t.to, now);
    var priors := PriorsAt(w, t.key.chain, t.to, now);
    if !HasPayment(w.payments, t.key) && Decide(seen, now, candidates, priors).Credit? {
      CreditHasEvidence(seen, now, candidates, priors);
    }
  }

  lemma TargetFacts(w: World, t: Transfer, seenAt: Time, now: Time, target: Target)
    requires Core(w) && Matches(w, t, seenAt, now, target)
    ensures target.ToInvoice? ==> OnChain(w, target.invoiceId, t.key.chain)
    ensures target.ToPark? && target.reason != NoMatchingAddress ==> PooledAddress(w, t.key.chain, t.to)
    ensures target.ToInvoice? && !target.sameAsset ==> PooledAddress(w, t.key.chain, t.to)
  {
    PooledTargetFacts(w, t, seenAt, now);
  }

  /** At a shared wallet, a transfer already credited is matched to where it was credited. */
  lemma ReplayTarget(w: World, t: Transfer, seenAt: Time, now: Time, target: Target)
    requires Core(w) && UniformModels(w) && Matches(w, t, seenAt, now, target)
    requires AtSharedWallet(w, t) && HasPayment(w.payments, t.key)
    ensures target == ToInvoice(w.payments[PlaceOf(w.payments, t.key)].invoiceId, Replay, true)
  {
    PooledTargetFacts(w, t, seenAt, now);
    var id :| id in InvoicesAt(w, t.key.chain, t.to) && w.invoices[id].terms.model == Pooled;
    var any :| any in InvoicesAt(w, t.key.chain, t.to) && TargetBy(w, t, seenAt, now, any, target);
    assert w.invoices[any].terms.model == Pooled;
  }

  // ── Each step ──────────────────────────────────────────────────────────────

  /** What a step may do to the tables that only grow. */
  ghost predicate Grows(w: World, w': World) {
    KeepsTerms(w.invoices, w'.invoices) && PaymentsKept(w.payments, w'.payments)
  }

  lemma SameInvoicesUniform(w: World, w': World)
    requires UniformModels(w) && KeepsTerms(w.invoices, w'.invoices) && w'.invoices.Keys == w.invoices.Keys
    ensures UniformModels(w')
  {}

  lemma InsertKeepsInv(cfg: Config, w: World, p: PaymentRow)
    requires Inv(cfg, w) && OnChain(w, p.invoiceId, p.key.chain)
    requires !HasPayment(w.payments, p.key) && !p.reversed
    ensures Inv(cfg, Insert(cfg, w, p)) && Grows(w, Insert(cfg, w, p))
    ensures PaysInvoice(Insert(cfg, w, p).payments, p.key, p.invoiceId)
    ensures Insert(cfg, w, p).parked == w.parked
  {
    var w' := Insert(cfg, w, p);
    InsertKeepsCore(cfg, w, p);
    InsertKeepsBooks(cfg, w, p);
    SameInvoicesUniform(w, w');
    FrameKeepsQueue(w, w');
    assert w'.payments[|w.payments|] == p;
  }

  lemma ResolveKeepsInv(cfg: Config, w: World, key: TransferKey, resolution: Resolution)
    requires Inv(cfg, w) && key in w.parked
    requires resolution.Attached? ==> PaysInvoice(w.payments, key, resolution.invoiceId)
    ensures var w' := w.(parked := w.parked[key := w.parked[key].(resolution := resolution)]);
            Inv(cfg, w') && Grows(w, w')
  {
    assert RowSound(w, key, w.parked[key]);
    UpdateKeepsQueue(w, key, w.parked[key].(resolution := resolution));
    FrameKeepsBooks(cfg, w, w.(parked := w.parked[key := w.parked[key].(resolution := resolution)]));
  }

  lemma ParkKeepsInv(cfg: Config, w: World, t: Transfer, reason: UnmatchedReason, now: Time)
    requires Inv(cfg, w) && (reason != NoMatchingAddress ==> PooledAddress(w, t.key.chain, t.to))
    ensures Inv(cfg, ParkTransfer(cfg, w, t, reason, now)) && Grows(w, ParkTransfer(cfg, w, t, reason, now))
  {
    var w' := ParkTransfer(cfg, w, t, reason, now);
    if t.key !in w.parked { UpdateKeepsQueue(w, t.key, w'.parked[t.key]); }
    FrameKeepsBooks(cfg, w, w');
  }

  lemma ConfirmingKeepsInv(cfg: Config, w: World, id: Id)
    requires Inv(cfg, w) && id in w.invoices && w.invoices[id].status == Status.Pending
    ensures var w' := SetInvoice(w, id, w.invoices[id].(status := Confirming)); Inv(cfg, w') && Grows(w, w')
  {
    var w' := SetInvoice(w, id, w.invoices[id].(status := Confirming));
    ConfirmingKeepsCore(w, id);
    FrameKeepsBooks(cfg, w, w');
    SameInvoicesUniform(w, w');
    FrameKeepsQueue(w, w');
  }

  lemma MarkAttached(cfg: Config, w: World, key: TransferKey, id: Id)
    requires Inv(cfg, w) && PaysInvoice(w.payments, key, id)
    ensures Inv(cfg, ResolveParked(w, key, id)) && Grows(w, ResolveParked(w, key, id))
  {
    if key in w.parked { ResolveKeepsInv(cfg, w, key, Attached(id)); }
  }

  lemma UnattributedKeepsInv(cfg: Config, w: World, t: Transfer, reason: UnmatchedReason, parked: bool, now: Time)
    requires Inv(cfg, w) && (reason != NoMatchingAddress ==> PooledAddress(w, t.key.chain, t.to))
    ensures var w' := Unattributed(cfg, w, t, reason, parked, now).world; Inv(cfg, w') && Grows(w, w')
  {
    ParkKeepsInv(cfg, w, t, reason, now);
  }

  /** What matching has to establish about a target for processing it to be safe. */
  ghost predicate SafeTarget(w: World, t: Transfer, parked: bool, target: Target) {
    match target
    case ToPark(reason) => reason != NoMatchingAddress ==> PooledAddress(w, t.key.chain, t.to)
    case ToInvoice(id, _, same) =>
      && OnChain(w, id, t.key.chain)
      && (!same ==> PooledAddress(w, t.key.chain, t.to))
      && (parked && HasPayment(w.payments, t.key) ==> PaysInvoice(w.payments, t.key, id))
  }

  lemma SafeTargetKeepsInv(cfg: Config, w: World, t: Transfer, quote: Quote, parked: bool, now: Time, target: Target)
    requires Inv(cfg, w) && SafeTarget(w, t, parked, target)
    ensures var w' := Process(cfg, w, t, quote, parked, now, target).world; Inv(cfg, w') && Grows(w, w')
  {
    match target
    case ToPark(reason) => UnattributedKeepsInv(cfg, w, t, reason, parked, now);
    case ToInvoice(id, _, same) =>
      var converted := if same then None else Convert(quote, w.invoices[id].terms.asset.decimals);
      if t.confirmations < quote.needed {
        if w.invoices[id].status == Status.Pending { ConfirmingKeepsInv(cfg, w, id); }
      } else if !same && converted.None? {
        UnattributedKeepsInv(cfg, w, t, WrongAsset, parked, now);
      } else if HasPayment(w.payments, t.key) {
        if parked { MarkAttached(cfg, w, t.key, id); }
      } else {
        CreditKeepsInv(cfg, w, NewPayment(t, id, converted, quote, now), parked);
      }
  }

  lemma CreditKeepsInv(cfg: Config, w: World, p: PaymentRow, parked: bool)
    requires Inv(cfg, w) && OnChain(w, p.invoiceId, p.key.chain)
    requires !HasPayment(w.payments, p.key) && !p.reversed
    ensures var w' := if parked then ResolveParked(Insert(cfg, w, p), p.key, p.invoiceId) else Insert(cfg, w, p);
            Inv(cfg, w') && Grows(w, w')
  {
    InsertKeepsInv(cfg, w, p);
    MarkAttached(cfg, Insert(cfg, w, p), p.key, p.invoiceId);
  }

  lemma MatchIsSafe(cfg: Config, w: World, t: Transfer, parked: bool, seenAt: Time, now: Time, target: Target)
    requires Inv(cfg, w) && Matches(w, t, seenAt, now, target) && (parked ==> AtSharedWallet(w, t))
    ensures SafeTarget(w, t, parked, target)
  {
    TargetFacts(w, t, seenAt, now, target);
    if parked && HasPayment(w.payments, t.key) { ReplayTarget(w, t, seenAt, now, target); }
  }

  lemma ReverseKeepsPayments(cfg: Config, w: World, key: TransferKey)
    ensures PaymentsKept(w.payments, Reverse(cfg, w, key).payments)
    ensures Reverse(cfg, w, key).parked == w.parked && Reverse(cfg, w, key).invoices.Keys == w.invoices.Keys
  {}

  lemma ReverseKeepsInv(cfg: Config, w: World, key: TransferKey)
    requires Inv(cfg, w)
    ensures Inv(cfg, Reverse(cfg, w, key)) && Grows(w, Reverse(cfg, w, key))
  {
    var w' := Reverse(cfg, w, key);
    ReverseKeepsCore(cfg, w, key);
    ReverseKeepsBooks(cfg, w, key);
    ReverseKeepsPayments(cfg, w, key);
    SameInvoicesUniform(w, w');
    FrameKeepsQueue(w, w');
  }

  /** An operator's attachment is an insertion without a value, and the row marked attached. */
  lemma AttachIsInsert(cfg: Config, w: World, key: TransferKey, id: Id, now: Time)
    requires AttachRefusal(w, key, id).None?
    ensures var p := PaymentRow(key, id, w.parked[key].amount, None, w.parked[key].from, None, now, false);
            Attach(w, key, id, now) == ResolveParked(Insert(cfg, w, p), key, id)
  {}

  lemma AttachKeepsInv(cfg: Config, w: World, key: TransferKey, id: Id, now: Time)
    requires Inv(cfg, w) && AttachRefusal(w, key, id).None?
    ensures Inv(cfg, Attach(w, key, id, now)) && Grows(w, Attach(w, key, id, now))
  {
    var p := PaymentRow(key, id, w.parked[key].amount, None, w.parked[key].from, None, now, false);
    AttachIsInsert(cfg, w, key, id, now);
    InsertKeepsInv(cfg, w, p);
    MarkAttached(cfg, Insert(cfg, w, p), key, id);
  }

  lemma ExpireKeepsInv(cfg: Config, w: World, now: Time, closed: set<Id>)
    requires Inv(cfg, w) && Enabled(w, Expiry(now, closed))
    ensures Inv(cfg, Expire(w, closed)) && Grows(w, Expire(w, closed))
  {
    var w' := Expire(w, closed);
    ExpireKeepsCore(w, now, closed);
    FrameKeepsBooks(cfg, w, w');
    SameInvoicesUniform(w, w');
    FrameKeepsQueue(w, w');
  }

  lemma IssueKeepsInv(cfg: Config, w: World, id: Id, terms: Terms)
    requires Inv(cfg, w) && id !in w.invoices && Issuable(w, terms)
    ensures var w' := SetInvoice(w, id, Invoice(terms, 0, Status.Pending, false, true)); Inv(cfg, w') && Grows(w, w')
  {
    var w' := SetInvoice(w, id, Invoice(terms, 0, Status.Pending, false, true));
    IssueKeepsCore(w, id, terms);
    FrameKeepsBooks(cfg, w, w');
    FrameKeepsQueue(w, w');
  }

  lemma StatementKeepsInv(cfg: Config, w: World, e: Entry)
    requires Inv(cfg, w) && e.payment.None? && e.kind in {Settlement, Adjustment}
    ensures Inv(cfg, w.(ledger := w.ledger + [e])) && Grows(w, w.(ledger := w.ledger + [e]))
  {
    StatementKeepsBooks(cfg, w, e);
    FrameKeepsQueue(w, w.(ledger := w.ledger + [e]));
  }

  lemma SweepKeepsInv(cfg: Config, w: World, key: TransferKey, quote: Quote, now: Time, target: Target)
    requires Inv(cfg, w) && Enabled(w, Sweep(key, quote, now, target))
    ensures var w' := Next(cfg, w, Sweep(key, quote, now, target)); Inv(cfg, w') && Grows(w, w')
  {
    var row := w.parked[key];
    assert RowSound(w, key, row);
    MatchIsSafe(cfg, w, Unparked(key, row), true, row.seenAt, now, target);
    SafeTargetKeepsInv(cfg, w, Unparked(key, row), quote, true, now, target);
  }

  lemma StepKeepsInv(cfg: Config, w: World, ev: Event)
    requires Inv(cfg, w)
    ensures Inv(cfg, Apply(cfg, w, ev)) && Grows(w, Apply(cfg, w, ev))
  {
    if Enabled(w, ev) {
      match ev
      case Issue(id, terms) => IssueKeepsInv(cfg, w, id, terms);
      case Present(t, quote, now, target) =>
        MatchIsSafe(cfg, w, t, false, now, now, target);
        SafeTargetKeepsInv(cfg, w, t, quote, false, now, target);
      case Sweep(key, quote, now, target) => SweepKeepsInv(cfg, w, key, quote, now, target);
      case Reversal(key) => ReverseKeepsInv(cfg, w, key);
      case Attachment(key, id, now) => AttachKeepsInv(cfg, w, key, id, now);
      case Resolve(key, resolution) => ResolveKeepsInv(cfg, w, key, resolution);
      case Expiry(now, closed) => ExpireKeepsInv(cfg, w, now, closed);
      case Statement(organization, kind, amount) =>
        StatementKeepsInv(cfg, w, Entry(organization, kind, amount, None));
    }
  }

  // ── Where invoices come from ───────────────────────────────────────────────

  lemma ProcessKeepsInvoices(cfg: Config, w: World, t: Transfer, quote: Quote, parked: bool, now: Time, target: Target)
    requires target.ToInvoice? ==> target.invoiceId in w.invoices
    ensures Process(cfg, w, t, quote, parked, now, target).world.invoices.Keys == w.invoices.Keys
  {
    if target.ToInvoice? {
      var converted := if target.sameAsset then None
        else Convert(quote, w.invoices[target.invoiceId].terms.asset.decimals);
      InsertKeepsInvoices(cfg, w, NewPayment(t, target.invoiceId, converted, quote, now));
    }
  }

  lemma InsertLeavesQueue(cfg: Config, w: World, p: PaymentRow)
    requires p.invoiceId in w.invoices
    ensures Insert(cfg, w, p).parked == w.parked
  {}

  lemma InsertKeepsInvoices(cfg: Config, w: World, p: PaymentRow)
    requires p.invoiceId in w.invoices
    ensures Insert(cfg, w, p).invoices.Keys == w.invoices.Keys
  {}

  /** A call that issues no invoice adds none. */
  lemma OnlyIssueAdds(cfg: Config, w: World, ev: Event)
    requires !ev.Issue?
    ensures Apply(cfg, w, ev).invoices.Keys == w.invoices.Keys
  {
    if Enabled(w, ev) {
      match ev
      case Present(t, quote, now, target) => ProcessKeepsInvoices(cfg, w, t, quote, false, now, target);
      case Sweep(key, quote, now, target) =>
        ProcessKeepsInvoices(cfg, w, Unparked(key, w.parked[key]), quote, true, now, target);
      case Reversal(key) => ReverseKeepsPayments(cfg, w, key);
      case _ =>
    }
  }

  // ── Whole runs ─────────────────────────────────────────────────────────────

  lemma {:induction false} RunKeepsInv(cfg: Config, w: World, events: seq<Event>)
    requires Inv(cfg, w)
    ensures Inv(cfg, Run(cfg, w, events)) && Grows(w, Run(cfg, w, events))
  {
    if events != [] {
      var before := Run(cfg, w, events[..|events| - 1]);
      RunKeepsInv(cfg, w, events[..|events| - 1]);
      StepKeepsInv(cfg, before, events[|events| - 1]);
      KeptIsTransitive(w.payments, before.payments, Run(cfg, w, events).payments);
    }
  }

  lemma EmptyTables(cfg: Config)
    ensures Inv(cfg, EMPTY)
  {}

  /** After every run, an invoice's total and status are those of its surviving payments. */
  lemma TotalsAgreeAfterEveryRun(cfg: Config, events: seq<Event>, id: Id)
    requires id in Run(cfg, EMPTY, events).invoices
    ensures var w := Run(cfg, EMPTY, events);
            Agrees(w.payments, id, w.invoices[id])
  {
    RunKeepsInv(cfg, EMPTY, events);
  }

  /** After every run, a balance is what people entered and what the payments leave on it. */
  lemma LedgerConservedAfterEveryRun(cfg: Config, events: seq<Event>, organization: Organization)
    requires cfg.ledgerWired
    ensures var w := Run(cfg, EMPTY, events);
            Balance(w.ledger, organization) == Human(w.ledger, organization) + Net(w.invoices, w.payments, organization)
  {
    RunKeepsInv(cfg, EMPTY, events);
  }

  /** A transfer counts toward an invoice: an unreversed payment row of the one for the other. */
  ghost predicate CountsToward(w: World, key: TransferKey, id: Id) {
    exists i :: 0 <= i < |w.payments| && w.payments[i].key == key && w.payments[i].invoiceId == id
      && !w.payments[i].reversed
  }

  lemma OneInvoice(w: World, w': World, key: TransferKey, id: Id, other: Id)
    requires DistinctKeys(w'.payments) && PaymentsKept(w.payments, w'.payments)
    requires CountsToward(w, key, id) && CountsToward(w', key, other)
    ensures id == other
  {
    var i :| 0 <= i < |w.payments| && w.payments[i].key == key && w.payments[i].invoiceId == id;
    assert w'.payments[i].key == key;
  }

  /** In every run, a transfer that counted toward an invoice never counts toward another. */
  lemma CountedOnce(cfg: Config, events: seq<Event>, later: seq<Event>, key: TransferKey, id: Id, other: Id)
    requires CountsToward(Run(cfg, EMPTY, events), key, id)
    requires CountsToward(Run(cfg, Run(cfg, EMPTY, events), later), key, other)
    ensures id == other
  {
    RunKeepsInv(cfg, EMPTY, events);
    RunKeepsInv(cfg, Run(cfg, EMPTY, events), later);
    OneInvoice(Run(cfg, EMPTY, events), Run(cfg, Run(cfg, EMPTY, events), later), key, id, other);
  }

  /** The transfer was credited, and the credit withdrawn. */
  ghost predicate Withdrawn(w: World, key: TransferKey) {
    HasPayment(w.payments, key) && w.payments[PlaceOf(w.payments, key)].reversed
  }

  lemma StaysWithdrawn(w: World, w': World, key: TransferKey, id: Id)
    requires DistinctKeys(w'.payments) && PaymentsKept(w.payments, w'.payments) && Withdrawn(w, key)
    ensures !CountsToward(w', key, id)
  {
    KeptPlace(w.payments, w'.payments, key);
  }

  /** A reversed transfer is not counted again, whatever is presented afterwards. */
  lemma ReversedForGood(cfg: Config, events: seq<Event>, later: seq<Event>, key: TransferKey, id: Id)
    requires Withdrawn(Run(cfg, EMPTY, events), key)
    ensures !CountsToward(Run(cfg, Run(cfg, EMPTY, events), later), key, id)
  {
    RunKeepsInv(cfg, EMPTY, events);
    RunKeepsInv(cfg, Run(cfg, EMPTY, events), later);
    StaysWithdrawn(Run(cfg, EMPTY, events), Run(cfg, Run(cfg, EMPTY, events), later), key, id);
  }

  /** A parked transfer marked attached is a payment of the invoice it names. */
  lemma AttachedIsPaid(cfg: Config, events: seq<Event>, key: TransferKey)
    requires var w := Run(cfg, EMPTY, events); key in w.parked && w.parked[key].resolution.Attached?
    ensures var w := Run(cfg, EMPTY, events); PaysInvoice(w.payments, key, w.parked[key].resolution.invoiceId)
  {
    RunKeepsInv(cfg, EMPTY, events);
    var w := Run(cfg, EMPTY, events);
    assert RowSound(w, key, w.parked[key]);
  }
}
