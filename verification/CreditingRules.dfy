/**
 What the steps of `CreditingState` do to the tables, said of the rows and numbers themselves:
 what a credited transfer is recorded as and counts for, which status a total earns, who is a
 candidate, what is refused and what is due.
 */
module CreditingRules {
  import opened DecimalPowers
  import opened Options
  import opened PooledMatching
  import opened CreditingState
  import opened CreditingRuns
  import opened CreditingSafety

  // ── Totals and statuses ────────────────────────────────────────────────────

  lemma Above(n: int, product: nat)
    ensures n > product / 10000 <==> n * 10000 > product
  {}

  /** A total earns its status by how far it is from what is due, against the tolerance in basis points. */
  lemma StatusByTolerance(total: nat, due: nat, toleranceBps: nat, current: Status)
    ensures var status := Classify(total, due, toleranceBps, current);
            && (total == 0 ==> status == if current == Expired then Expired else Status.Pending)
            && (total > 0 ==> (status == Underpaid <==> (due - total) * 10000 > due * toleranceBps))
            && (total > 0 ==> (status == Overpaid <==> (total - due) * 10000 > due * toleranceBps))
            && (total > 0 ==> status in {Underpaid, Paid, Overpaid})
  {
    Above(due - total, due * toleranceBps);
    Above(total - due, due * toleranceBps);
  }

  /** After every run that is the status of every invoice with money on it. */
  lemma StatusAfterEveryRun(cfg: Config, events: seq<Event>, id: Id)
    requires id in Run(cfg, EMPTY, events).invoices && Run(cfg, EMPTY, events).invoices[id].amountPaid > 0
    ensures var invoice := Run(cfg, EMPTY, events).invoices[id];
            var due, paid, slack := invoice.terms.amountDue, invoice.amountPaid,
                                    invoice.terms.amountDue * invoice.terms.toleranceBps;
            && (invoice.status == Underpaid <==> (due - paid) * 10000 > slack)
            && (invoice.status == Overpaid <==> (paid - due) * 10000 > slack)
            && invoice.status in {Underpaid, Paid, Overpaid}
  {
    var invoice := Run(cfg, EMPTY, events).invoices[id];
    TotalsAgreeAfterEveryRun(cfg, events, id);
    StatusByTolerance(invoice.amountPaid, invoice.terms.amountDue, invoice.terms.toleranceBps, invoice.status);
  }

  /** A row adds to its invoice's total what it was credited at, or else its amount, unless it was reversed. */
  lemma PaymentCounts(payments: seq<PaymentRow>, p: PaymentRow, id: Id)
    ensures AmountPaid(payments + [p], id) - AmountPaid(payments, id)
         == if p.invoiceId != id || p.reversed then 0
            else match p.creditedAmount case Some(credited) => credited case None => p.amount
    ensures AmountPaid([], id) == 0
  {
    AmountPaidAppend(payments, p, id);
  }

  /** Recomputing sets total and status of one invoice, and marks the first time it was paid in full. */
  lemma RecomputedInvoice(w: World, id: Id)
    requires id in w.invoices
    ensures var before, after := w.invoices[id], Recompute(w, id);
            && after == w.(invoices := w.invoices[id := after.invoices[id]])
            && after.invoices[id].terms == before.terms && after.invoices[id].referenceActive == before.referenceActive
            && after.invoices[id].amountPaid == AmountPaid(w.payments, id)
            && (after.invoices[id].paidOnce <==> before.paidOnce || after.invoices[id].status == Paid)
  {}

  // ── What a transfer counts for ─────────────────────────────────────────────

  lemma Floored(n: nat, d: nat)
    requires d > 0
    ensures n / d * d <= n < (n / d + 1) * d
  {}

  /** The worth of a transfer in the invoice's token, rounded down; none when either price is missing. */
  lemma ConvertedAmount(quote: Quote, decimals: Decimals)
    ensures Convert(quote, decimals).Some?
       <==> quote.valueUsdMicros.Some? && quote.unitUsdMicros.Some? && quote.unitUsdMicros.value > 0
    ensures Convert(quote, decimals).Some? ==>
              var credited, unit := Convert(quote, decimals).value, quote.unitUsdMicros.value;
              credited * unit <= quote.valueUsdMicros.value * Pow10(decimals) < (credited + 1) * unit
  {
    if quote.valueUsdMicros.Some? && quote.unitUsdMicros.Some? && quote.unitUsdMicros.value > 0 {
      Floored(quote.valueUsdMicros.value * Pow10(decimals), quote.unitUsdMicros.value);
    }
  }

  /** The row of a transfer credited to an invoice: as it was sent, and at its worth when in another token. */
  ghost predicate RecordsTransfer(p: PaymentRow, t: Transfer, quote: Quote, now: Time, id: Id, same: bool) {
    && p.key == t.key && p.invoiceId == id && p.amount == t.amount && p.from == t.from
    && p.valueUsdMicros == quote.valueUsdMicros && p.creditedAt == now && !p.reversed
    && (same <==> p.creditedAmount.None?)
  }

  ghost predicate WorthInToken(credited: nat, quote: Quote, decimals: Decimals) {
    && quote.valueUsdMicros.Some? && quote.unitUsdMicros.Some?
    && credited * quote.unitUsdMicros.value <= quote.valueUsdMicros.value * Pow10(decimals)
    && quote.valueUsdMicros.value * Pow10(decimals) < (credited + 1) * quote.unitUsdMicros.value
  }

  /** The tables after a credit: one row more, which records the transfer, and its invoice's total with it. */
  ghost predicate CreditsRow(w: World, after: World, p: PaymentRow) {
    && after.payments == w.payments + [p] && p.invoiceId in after.invoices
    && after.invoices[p.invoiceId].amountPaid == AmountPaid(w.payments, p.invoiceId)
         + match p.creditedAmount case Some(credited) => credited case None => p.amount
  }

  /** What crediting does: the transfer is recorded, and counts for its amount or its worth. */
  lemma CreditedTransfer(cfg: Config, w: World, t: Transfer, quote: Quote, parked: bool, now: Time, target: Target)
    returns (p: PaymentRow)
    requires target.ToInvoice? ==> target.invoiceId in w.invoices
    requires Process(cfg, w, t, quote, parked, now, target).outcome == Credited
    ensures target.ToInvoice? && !HasPayment(w.payments, t.key)
    ensures RecordsTransfer(p, t, quote, now, target.invoiceId, target.sameAsset)
    ensures p.creditedAmount.Some? ==>
              WorthInToken(p.creditedAmount.value, quote, w.invoices[target.invoiceId].terms.asset.decimals)
    ensures CreditsRow(w, Process(cfg, w, t, quote, parked, now, target).world, p)
  {
    var decimals := w.invoices[target.invoiceId].terms.asset.decimals;
    ConvertedAmount(quote, decimals);
    p := NewPayment(t, target.invoiceId, if target.sameAsset then None else Convert(quote, decimals), quote, now);
    InsertedRow(cfg, w, p);
    PaymentCounts(w.payments, p, p.invoiceId);
  }

  lemma InsertedRow(cfg: Config, w: World, p: PaymentRow)
    requires p.invoiceId in w.invoices
    ensures Insert(cfg, w, p).payments == w.payments + [p] && Insert(cfg, w, p).parked == w.parked
    ensures p.invoiceId in Insert(cfg, w, p).invoices
    ensures Insert(cfg, w, p).invoices[p.invoiceId].amountPaid == AmountPaid(w.payments + [p], p.invoiceId)
  {}

  /** The rows after a call that credited a transfer: those before, and one that records it. */
  ghost predicate RecordedLast(before: seq<PaymentRow>, after: seq<PaymentRow>, t: Transfer, quote: Quote, now: Time,
                               target: Target)
    requires target.ToInvoice?
  {
    && |after| == |before| + 1 && after[..|before|] == before
    && RecordsTransfer(after[|before|], t, quote, now, target.invoiceId, target.sameAsset)
  }

  lemma PresentedRows(cfg: Config, w: World, t: Transfer, quote: Quote, now: Time, target: Target)
    requires target.ToInvoice? ==> target.invoiceId in w.invoices
    ensures var done := Process(cfg, w, t, quote, false, now, target);
            if done.outcome == Credited
            then target.ToInvoice? && RecordedLast(w.payments, done.world.payments, t, quote, now, target)
            else done.world.payments == w.payments
  {
    if Process(cfg, w, t, quote, false, now, target).outcome == Credited {
      var p := CreditedTransfer(cfg, w, t, quote, false, now, target);
    }
  }

  // ── Outcomes ───────────────────────────────────────────────────────────────

  /** A transfer in another token than the invoice's, without prices to convert it by. */
  predicate Unpriced(quote: Quote) {
    quote.valueUsdMicros.None? || quote.unitUsdMicros.None? || quote.unitUsdMicros.value == 0
  }

  /** Which outcome a transfer has: too few confirmations, nobody's, known already, or credited. */
  lemma OutcomeOf(cfg: Config, w: World, t: Transfer, quote: Quote, parked: bool, now: Time, target: Target)
    requires target.ToInvoice? ==> target.invoiceId in w.invoices
    ensures var outcome := Process(cfg, w, t, quote, parked, now, target).outcome;
            var waits := target.ToInvoice? && t.confirmations < quote.needed;
            var stray := target.ToPark? || (!target.sameAsset && Unpriced(quote));
            && (outcome == Deferred <==> waits)
            && (outcome in {Unmatched, Rejected} <==> !waits && stray)
            && (outcome == Rejected <==> !waits && stray && !parked && !cfg.queueWired)
            && (outcome == Duplicate <==> !waits && !stray && HasPayment(w.payments, t.key))
            && (outcome == Credited <==> !waits && !stray && !HasPayment(w.payments, t.key))
  {}

  /** A transfer that waits turns a pending invoice to confirming, and changes nothing else. */
  lemma WaitingTransfer(cfg: Config, w: World, t: Transfer, quote: Quote, parked: bool, now: Time, target: Target)
    requires target.ToInvoice? ==> target.invoiceId in w.invoices
    requires Process(cfg, w, t, quote, parked, now, target).outcome == Deferred
    ensures var after, id := Process(cfg, w, t, quote, parked, now, target).world, target.invoiceId;
            && after.payments == w.payments && after.parked == w.parked && after.ledger == w.ledger
            && after.invoices == if w.invoices[id].status != Status.Pending then w.invoices
                                 else w.invoices[id := w.invoices[id].(status := Confirming)]
  {}

  /** A stray is put in the queue as it was sent, once, and nothing else changes. */
  lemma StrayTransfer(cfg: Config, w: World, t: Transfer, quote: Quote, parked: bool, now: Time, target: Target)
    requires target.ToInvoice? ==> target.invoiceId in w.invoices
    requires Process(cfg, w, t, quote, parked, now, target).outcome in {Unmatched, Rejected}
    ensures var after := Process(cfg, w, t, quote, parked, now, target).world;
            && after == w.(parked := after.parked)
            && (parked || !cfg.queueWired || t.key in w.parked ==> after.parked == w.parked)
            && (!parked && cfg.queueWired && t.key !in w.parked ==>
                  && after.parked.Keys == w.parked.Keys + {t.key}
                  && (forall key :: key in w.parked ==> after.parked[key] == w.parked[key])
                  && var row := after.parked[t.key];
                     && row.amount == t.amount && row.to == t.to && row.from == t.from && row.seenAt == now
                     && row.resolution == Resolution.Pending
                     && row.reason == (if target.ToPark? then target.reason else WrongAsset)
                     && (row.asset.Some? <==> t.asset.key in cfg.catalogue)
                     && (row.asset.Some? ==> row.asset.value == cfg.catalogue[t.asset.key]))
  {}

  /** From the queue, a transfer that is credited or known has its row attached; presented, no row changes. */
  lemma QueueRow(cfg: Config, w: World, t: Transfer, quote: Quote, parked: bool, now: Time, target: Target)
    requires target.ToInvoice? ==> target.invoiceId in w.invoices
    requires Process(cfg, w, t, quote, parked, now, target).outcome in {Credited, Duplicate}
    ensures var after := Process(cfg, w, t, quote, parked, now, target).world.parked;
            if parked && t.key in w.parked && w.parked[t.key].resolution == Resolution.Pending
            then after == w.parked[t.key := w.parked[t.key].(resolution := Attached(target.invoiceId))]
            else after == w.parked
  {}

  // ── Whose transfer it is ───────────────────────────────────────────────────

  /** The candidates at an address: pending or confirming invoices, and those closed for less than a day. */
  lemma CandidateIs(w: World, chain: Chain, address: string, now: Time, c: CandidateInvoice)
    ensures c in CandidatesAt(w, chain, address, now) <==>
              && c.id in w.invoices
              && var invoice := w.invoices[c.id];
                 && invoice.terms.chain == chain && invoice.terms.depositAddress == address
                 && (invoice.status in {Status.Pending, Confirming} || now - invoice.terms.expiresAt < 86_400_000)
                 && c.amountDue == invoice.terms.amountDue && c.status == invoice.status
                 && c.decimals == invoice.terms.asset.decimals && c.assetKey == invoice.terms.asset.key
                 && c.expiresAt == invoice.terms.expiresAt && c.createdAt == invoice.terms.createdAt
  {
    if c.id in w.invoices && c == AsCandidate(c.id, w.invoices[c.id]) && AtAddress(w.invoices[c.id], chain, address)
       && Recent(w.invoices[c.id], now)
    {
      assert c in CandidatesAt(w, chain, address, now);
    }
  }

  /** A row is a payment to such an invoice, unreversed, credited less than a day ago. */
  lemma PriorRowIs(w: World, chain: Chain, address: string, now: Time, p: PaymentRow)
    ensures IsPrior(w, chain, address, now, p) <==>
              && p.invoiceId in w.invoices && !p.reversed && now - p.creditedAt < 86_400_000
              && var invoice := w.invoices[p.invoiceId];
                 && invoice.terms.chain == chain && invoice.terms.depositAddress == address
                 && (invoice.status in {Status.Pending, Confirming} || now - invoice.terms.expiresAt < 86_400_000)
  {}

  ghost predicate SaysPrior(p: PaymentRow, prior: PriorPayment) {
    p.invoiceId == prior.invoiceId && p.from == prior.from && p.creditedAt == prior.creditedAt
  }

  ghost predicate PriorRow(w: World, chain: Chain, address: string, now: Time, prior: PriorPayment, i: int) {
    0 <= i < |w.payments| && IsPrior(w, chain, address, now, w.payments[i]) && SaysPrior(w.payments[i], prior)
  }

  /** And prior payments are such rows, with their invoice, sender and moment. */
  lemma PriorIs(w: World, chain: Chain, address: string, now: Time, prior: PriorPayment)
    ensures prior in PriorsAt(w, chain, address, now) <==> exists i :: PriorRow(w, chain, address, now, prior, i)
  {
    if prior in PriorsAt(w, chain, address, now) {
      var i :| 0 <= i < |w.payments| && IsPrior(w, chain, address, now, w.payments[i])
            && PriorPayment(w.payments[i].invoiceId, w.payments[i].from, w.payments[i].creditedAt) == prior;
      assert PriorRow(w, chain, address, now, prior, i);
    }
    if i :| PriorRow(w, chain, address, now, prior, i) {
      assert prior == PriorPayment(w.payments[i].invoiceId, w.payments[i].from, w.payments[i].creditedAt);
    }
  }

  ghost predicate HasMemo(w: World, t: Transfer, id: Id) {
    && t.memo.Some? && t.memo.value != "" && id in w.invoices
    && w.invoices[id].terms.chain == t.key.chain && w.invoices[id].terms.memo == t.memo
  }

  ghost predicate HasAddress(w: World, t: Transfer, id: Id) {
    id in w.invoices && w.invoices[id].terms.chain == t.key.chain && w.invoices[id].terms.depositAddress == t.to
  }

  /** A memo that an invoice of the chain has decides; nothing else is looked at then. */
  lemma MemoDecides(w: World, t: Transfer, seenAt: Time, now: Time, target: Target)
    requires exists id :: HasMemo(w, t, id)
    ensures Matches(w, t, seenAt, now, target) <==>
              target.ToInvoice? && target.rule == ByMemo && target.sameAsset && HasMemo(w, t, target.invoiceId)
  {
    var id :| HasMemo(w, t, id);
    assert id in InvoicesWithMemo(w, t.key.chain, t.memo.value);
  }

  /** Otherwise an address that no invoice has is nobody's. */
  lemma UnknownAddress(w: World, t: Transfer, seenAt: Time, now: Time, target: Target)
    requires forall id :: !HasMemo(w, t, id) && !HasAddress(w, t, id)
    ensures Matches(w, t, seenAt, now, target) <==> target == ToPark(NoMatchingAddress)
  {
    NoMemo(w, t);
    forall id ensures id !in InvoicesAt(w, t.key.chain, t.to) { assert !HasAddress(w, t, id); }
  }

  /** And a transfer to addresses that are not shared pays an invoice with its address. */
  lemma AddressDecides(w: World, t: Transfer, seenAt: Time, now: Time, target: Target)
    requires (forall id :: !HasMemo(w, t, id)) && exists id :: HasAddress(w, t, id)
    requires forall id :: HasAddress(w, t, id) ==> w.invoices[id].terms.model != Pooled
    ensures Matches(w, t, seenAt, now, target) <==>
              target.ToInvoice? && target.rule == ByAddress && target.sameAsset && HasAddress(w, t, target.invoiceId)
  {
    NoMemo(w, t);
    var any :| HasAddress(w, t, any);
    assert any in InvoicesAt(w, t.key.chain, t.to);
    forall id ensures id in InvoicesAt(w, t.key.chain, t.to) <==> HasAddress(w, t, id) {}
    if target.ToInvoice? && target.rule == ByAddress && target.sameAsset && HasAddress(w, t, target.invoiceId) {
      assert target == ToInvoice(target.invoiceId, ByAddress, true);
      assert TargetBy(w, t, seenAt, now, any, target);
    }
  }

  lemma NoMemo(w: World, t: Transfer)
    requires forall id :: !HasMemo(w, t, id)
    ensures t.memo.Some? && t.memo.value != "" ==> InvoicesWithMemo(w, t.key.chain, t.memo.value) == {}
  {
    if t.memo.Some? && t.memo.value != "" {
      forall id ensures id !in InvoicesWithMemo(w, t.key.chain, t.memo.value) { assert !HasMemo(w, t, id); }
    }
  }

  /** The rules decide about a transfer as it was sent, over the candidates and prior payments at its address. */
  ghost predicate Sees(seen: ObservedTransfer, t: Transfer, seenAt: Time) {
    && seen.amount == t.amount && seen.decimals == t.asset.decimals && seen.assetKey == t.asset.key
    && seen.from == t.from && seen.seenAt == seenAt
  }

  /** At a shared wallet: where the transfer was credited, or else what the rules decide about it. */
  lemma SharedWalletTarget(w: World, t: Transfer, seenAt: Time, now: Time, seen: ObservedTransfer)
    requires Core(w) && Sees(seen, t, seenAt)
    ensures var target := PooledTarget(w, t, seenAt, now);
            var decision := Decide(seen, now, CandidatesAt(w, t.key.chain, t.to, now),
                                   PriorsAt(w, t.key.chain, t.to, now));
            && (HasPayment(w.payments, t.key) ==>
                  target == ToInvoice(w.payments[PlaceOf(w.payments, t.key)].invoiceId, Replay, true))
            && (!HasPayment(w.payments, t.key) && decision.Credit? ==>
                  target == ToInvoice(decision.invoiceId, ByRule(decision.rule), decision.sameAsset))
            && (!HasPayment(w.payments, t.key) && decision.Park? ==> target == ToPark(decision.reason))
  {
    PooledTargetFacts(w, t, seenAt, now);
    assert seen == ObservedTransfer(t.amount, t.asset.decimals, t.asset.key, t.from, seenAt);
    var candidates, priors := CandidatesAt(w, t.key.chain, t.to, now), PriorsAt(w, t.key.chain, t.to, now);
    if Decide(seen, now, candidates, priors).Credit? { CreditHasEvidence(seen, now, candidates, priors); }
  }

  // ── The queue ──────────────────────────────────────────────────────────────

  /** The sweep takes rows that wait, were matched to an address, and have a token the catalogue knew. */
  lemma SweptRow(key: TransferKey, row: ParkedRow)
    ensures Sweepable(row) <==>
              && row.resolution == Resolution.Pending && row.asset.Some?
              && row.reason in {WrongAsset, InvoiceExpired, Ambiguous}
    ensures row.asset.Some? ==>
              var t := Unparked(key, row);
              && t.key == key && t.to == row.to && t.from == row.from && t.amount == row.amount
              && t.asset == row.asset.value && t.memo.None? && t.confirmations == 9_007_199_254_740_991
  {}

  /** When an operator's attachment goes through, and what it records: the amount sent, at no dollar value. */
  lemma AttachedTransfer(w: World, key: TransferKey, id: Id, now: Time)
    ensures AttachRefusal(w, key, id).None? <==>
              && key in w.parked && w.parked[key].resolution == Resolution.Pending
              && id in w.invoices && w.invoices[id].terms.chain == key.chain && !HasPayment(w.payments, key)
    ensures AttachRefusal(w, key, id).None? ==>
              var after := Attach(w, key, id, now);
              && after.ledger == w.ledger && |after.payments| == |w.payments| + 1
              && after.payments[..|w.payments|] == w.payments
              && after.parked == w.parked[key := w.parked[key].(resolution := Attached(id))]
              && var p := after.payments[|w.payments|];
                 && p.key == key && p.invoiceId == id
                 && p.amount == w.parked[key].amount && p.from == w.parked[key].from
                 && p.creditedAmount.None? && p.valueUsdMicros.None? && p.creditedAt == now && !p.reversed
  {}

  /** Which refusal is given: the first that applies, in this order. */
  lemma AttachmentRefused(w: World, key: TransferKey, id: Id)
    ensures var refusal := AttachRefusal(w, key, id);
            && (refusal == Some(NotFound) <==> key !in w.parked)
            && (refusal == Some(AlreadyResolved) <==>
                  key in w.parked && w.parked[key].resolution != Resolution.Pending)
            && (refusal.Some? && refusal.value in {InvoiceNotFound, ChainMismatch, AlreadyCredited} ==>
                  && key in w.parked && w.parked[key].resolution == Resolution.Pending
                  && (refusal.value == InvoiceNotFound <==> id !in w.invoices)
                  && (refusal.value == ChainMismatch <==>
                        id in w.invoices && w.invoices[id].terms.chain != key.chain))
  {}

  // ── Reversals and expiry ───────────────────────────────────────────────────

  /** A reversal marks the transfer's row and no other, and keeps all it says. */
  lemma ReversedRow(cfg: Config, w: World, key: TransferKey)
    ensures var after := Reverse(cfg, w, key).payments;
            && |after| == |w.payments|
            && (forall i :: 0 <= i < |after| && i != PlaceOf(w.payments, key) ==> after[i] == w.payments[i])
            && (HasPayment(w.payments, key) ==>
                  after[PlaceOf(w.payments, key)] == w.payments[PlaceOf(w.payments, key)].(reversed := true))
    ensures Reverse(cfg, w, key).parked == w.parked
  {}

  /** A pending invoice is due at its deadline, and one with a transfer under way a day later; no other ever is. */
  lemma DueExactly(invoice: Invoice, now: Time)
    ensures Due(invoice, now) <==>
              || (invoice.status == Status.Pending && now >= invoice.terms.expiresAt)
              || (invoice.status == Confirming && now >= invoice.terms.expiresAt + 86_400_000)
  {}

  /** What expiry closes is expired and takes no more payments by reference; everything else stays. */
  lemma ExpiredInvoices(w: World, closed: set<Id>)
    ensures var after := Expire(w, closed);
            && after == w.(invoices := after.invoices) && after.invoices.Keys == w.invoices.Keys
            && (forall id :: id in w.invoices && id !in closed ==> after.invoices[id] == w.invoices[id])
            && (forall id :: id in w.invoices && id in closed ==>
                  after.invoices[id] == w.invoices[id].(status := Expired, referenceActive := false))
  {}

  // ── The ledger ─────────────────────────────────────────────────────────────

  /** A share is rounded down, and of an unknown value there is none. */
  lemma ShareIs(value: nat, bps: nat)
    ensures Share(Some(value), bps) * 10000 <= value * bps < (Share(Some(value), bps) + 1) * 10000
    ensures Share(None, bps) == 0
  {}

  ghost predicate HasRow(ledger: seq<Entry>, key: TransferKey, kind: EntryKind) {
    exists i :: 0 <= i < |ledger| && ledger[i].payment == Some(key) && ledger[i].kind == kind
  }

  lemma HasEntryIs(ledger: seq<Entry>, key: TransferKey, kind: EntryKind)
    ensures HasEntry(ledger, key, kind) <==> HasRow(ledger, key, kind)
  {
    if HasRow(ledger, key, kind) {
      var i :| 0 <= i < |ledger| && ledger[i].payment == Some(key) && ledger[i].kind == kind;
      assert ledger[i] in ledger;
    }
  }

  /** A commission is owed once for a payment: one entry, negative, unless it is nothing or is there. */
  lemma AccrualIs(ledger: seq<Entry>, terms: Terms, p: PaymentRow)
    ensures var share := Share(p.valueUsdMicros, terms.accruedFeeBps);
            Accrue(ledger, terms, p) ==
              if share == 0 || HasRow(ledger, p.key, Accrual) then ledger
              else ledger + [Entry(terms.organization, Accrual, -share, Some(p.key))]
  {
    HasEntryIs(ledger, p.key, Accrual);
  }

  /** What an invoice's raised fee collected is entered once, in the organisation's favour. */
  lemma RecoveryIs(ledger: seq<Entry>, terms: Terms, p: PaymentRow)
    ensures var share := Share(p.valueUsdMicros, terms.recoveryBps);
            Recover(ledger, terms, p) ==
              if share == 0 || HasRow(ledger, p.key, Recovery) then ledger
              else ledger + [Entry(terms.organization, Recovery, share, Some(p.key))]
  {
    HasEntryIs(ledger, p.key, Recovery);
  }

  /** A balance is the sum of the organisation's own entries. */
  lemma BalanceIs(ledger: seq<Entry>, e: Entry, organization: Organization)
    ensures Balance([], organization) == 0
    ensures Balance(ledger + [e], organization) - Balance(ledger, organization)
         == if e.organization == organization then e.amount else 0
  {
    EntryAppend(ledger, e, organization);
  }
}
