/**
 Presenting a transfer that already has a payment row, any number of times and anywhere in a
 run, changes no total, no status and no balance: the padded run ends with the same invoices,
 payments and ledger as the run without the repetitions.
 */
module CreditingReplay {
  import opened Options
  import opened PooledMatching
  import opened CreditingState
  import opened CreditingRuns
  import opened CreditingSafety

  /** The same invoices, payments and ledger, and the same queue but for transfers already credited. */
  ghost predicate Alike(w: World, w': World) {
    && w'.invoices == w.invoices && w'.payments == w.payments && w'.ledger == w.ledger
    && forall key :: !HasPayment(w.payments, key) ==> SameRow(w, w', key)
  }

  ghost predicate SameRow(w: World, w': World, key: TransferKey) {
    (key in w.parked <==> key in w'.parked) && (key in w.parked && key in w'.parked ==> w.parked[key] == w'.parked[key])
  }

  lemma AlikeTransitive(a: World, b: World, c: World)
    requires Alike(a, b) && Alike(b, c)
    ensures Alike(a, c) && Alike(b, a)
  {
    forall key | !HasPayment(a.payments, key) ensures SameRow(a, c, key) && SameRow(b, a, key) {
      assert SameRow(a, b, key) && SameRow(b, c, key);
    }
  }

  /** Queues that differ in one row only, of a transfer that is credited. */
  lemma AlikeButFor(w: World, w': World, key: TransferKey)
    requires w'.invoices == w.invoices && w'.payments == w.payments && w'.ledger == w.ledger
    requires HasPayment(w.payments, key) && forall k :: k != key ==> SameRow(w, w', k)
    ensures Alike(w, w')
  {}

  // ── Matching reads the invoices and the payments only ──────────────────────

  lemma SameTargets(w: World, w': World, t: Transfer, seenAt: Time, now: Time, target: Target)
    requires w'.invoices == w.invoices && w'.payments == w.payments
    ensures Matches(w, t, seenAt, now, target) <==> Matches(w', t, seenAt, now, target)
  {
    assert InvoicesAt(w, t.key.chain, t.to) == InvoicesAt(w', t.key.chain, t.to);
    assert CandidatesAt(w, t.key.chain, t.to, now) == CandidatesAt(w', t.key.chain, t.to, now);
    SamePriors(w, w', t.key.chain, t.to, now);
    if t.memo.Some? {
      assert InvoicesWithMemo(w, t.key.chain, t.memo.value) == InvoicesWithMemo(w', t.key.chain, t.memo.value);
    }
    assert PooledTarget(w, t, seenAt, now) == PooledTarget(w', t, seenAt, now);
    forall any | any in InvoicesAt(w, t.key.chain, t.to)
      ensures TargetBy(w, t, seenAt, now, any, target) <==> TargetBy(w', t, seenAt, now, any, target) {}
  }

  lemma SamePriors(w: World, w': World, chain: Chain, address: string, now: Time)
    requires w'.invoices == w.invoices && w'.payments == w.payments
    ensures PriorsAt(w, chain, address, now) == PriorsAt(w', chain, address, now)
  {
    forall i | 0 <= i < |w.payments|
      ensures IsPrior(w, chain, address, now, w.payments[i]) <==> IsPrior(w', chain, address, now, w.payments[i]) {}
  }

  // ── Transfers already credited ─────────────────────────────────────────────

  lemma RepeatedProcess(cfg: Config, w: World, t: Transfer, quote: Quote, now: Time, target: Target)
    requires HasPayment(w.payments, t.key) && t.confirmations >= quote.needed
    requires target.ToInvoice? ==> target.invoiceId in w.invoices
    ensures Alike(w, Process(cfg, w, t, quote, false, now, target).world)
  {
    AlikeButFor(w, Process(cfg, w, t, quote, false, now, target).world, t.key);
  }

  /** The transfer a call on the queue is about. */
  function QueueKey(ev: Event): Option<TransferKey> {
    match ev
    case Sweep(key, _, _, _) => Some(key)
    case Attachment(key, _, _) => Some(key)
    case Resolve(key, _) => Some(key)
    case _ => None
  }

  lemma SweepOfCredited(cfg: Config, w: World, key: TransferKey, quote: Quote, now: Time, target: Target)
    requires Inv(cfg, w) && HasPayment(w.payments, key) && Enabled(w, Sweep(key, quote, now, target))
    ensures Alike(w, Next(cfg, w, Sweep(key, quote, now, target)))
  {
    var row := w.parked[key];
    assert RowSound(w, key, row);
    ReplayTarget(w, Unparked(key, row), row.seenAt, now, target);
    AlikeButFor(w, Next(cfg, w, Sweep(key, quote, now, target)), key);
  }

  /** Whatever is done with the queue row of a credited transfer does not count. */
  lemma QueueOfCredited(cfg: Config, w: World, ev: Event)
    requires Inv(cfg, w) && QueueKey(ev).Some? && HasPayment(w.payments, QueueKey(ev).value)
    ensures Alike(w, Apply(cfg, w, ev))
  {
    if Enabled(w, ev) {
      match ev
      case Sweep(key, quote, now, target) => SweepOfCredited(cfg, w, key, quote, now, target);
      case Resolve(key, resolution) => AlikeButFor(w, Next(cfg, w, ev), key);
      case Attachment(key, id, now) =>
    }
  }

  /**
   A call about a transfer that has a payment row: presented again, final by the chain's policy,
   or found in the queue by the sweep or by an operator.
   */
  ghost predicate Repeats(w: World, ev: Event) {
    || (ev.Present? && HasPayment(w.payments, ev.t.key) && ev.t.confirmations >= ev.quote.needed)
    || (QueueKey(ev).Some? && HasPayment(w.payments, QueueKey(ev).value))
  }

  /** It leaves invoices, payments and ledger alone. */
  lemma RepeatIsInvisible(cfg: Config, w: World, ev: Event)
    requires Inv(cfg, w) && Repeats(w, ev)
    ensures Alike(w, Apply(cfg, w, ev))
  {
    if QueueKey(ev).Some? {
      QueueOfCredited(cfg, w, ev);
    } else if Enabled(w, ev) {
      RepeatedProcess(cfg, w, ev.t, ev.quote, ev.now, ev.target);
    }
  }

  // ── Two runs in step ───────────────────────────────────────────────────────

  lemma StillNoPayment(before: seq<PaymentRow>, after: seq<PaymentRow>, key: TransferKey)
    requires PaymentsKept(before, after) && !HasPayment(after, key)
    ensures !HasPayment(before, key)
  {
    HasPaymentIff(before, key);
  }

  /** What happens to the tables beside the queue does not depend on the queue. */
  lemma InsertBesideQueue(cfg: Config, w: World, w': World, p: PaymentRow)
    requires p.invoiceId in w.invoices && w'.invoices == w.invoices && w'.payments == w.payments
           && w'.ledger == w.ledger
    ensures Insert(cfg, w', p) == Insert(cfg, w, p).(parked := w'.parked)
    ensures Insert(cfg, w, p).parked == w.parked
  {}

  /** The tables are alike, and every row that was the same still is. */
  lemma AlikeAfter(v: World, v': World, w: World, w': World)
    requires Alike(v, v') && PaymentsKept(v.payments, w.payments)
    requires w'.invoices == w.invoices && w'.payments == w.payments && w'.ledger == w.ledger
    requires forall k :: SameRow(v, v', k) ==> SameRow(w, w', k)
    ensures Alike(w, w')
  {
    forall k | !HasPayment(w.payments, k) ensures SameRow(w, w', k) {
      StillNoPayment(v.payments, w.payments, k);
    }
  }

  lemma ResolveAlike(w: World, w': World, key: TransferKey, id: Id)
    requires Alike(w, w')
    ensures Alike(ResolveParked(w, key, id), ResolveParked(w', key, id))
  {
    AlikeAfter(w, w', ResolveParked(w, key, id), ResolveParked(w', key, id));
  }

  lemma UnattributedAlike(cfg: Config, w: World, w': World, t: Transfer, reason: UnmatchedReason, parked: bool,
      now: Time)
    requires Alike(w, w')
    ensures Alike(Unattributed(cfg, w, t, reason, parked, now).world,
      Unattributed(cfg, w', t, reason, parked, now).world)
  {
    AlikeAfter(w, w', Unattributed(cfg, w, t, reason, parked, now).world,
      Unattributed(cfg, w', t, reason, parked, now).world);
  }

  lemma CreditAlike(cfg: Config, w: World, w': World, p: PaymentRow, parked: bool)
    requires Alike(w, w') && p.invoiceId in w.invoices
    ensures Alike(if parked then ResolveParked(Insert(cfg, w, p), p.key, p.invoiceId) else Insert(cfg, w, p),
                  if parked then ResolveParked(Insert(cfg, w', p), p.key, p.invoiceId) else Insert(cfg, w', p))
  {
    InsertBesideQueue(cfg, w, w', p);
    AlikeAfter(w, w', Insert(cfg, w, p), Insert(cfg, w', p));
    ResolveAlike(Insert(cfg, w, p), Insert(cfg, w', p), p.key, p.invoiceId);
  }

  lemma ConfirmingAlike(w: World, w': World, id: Id)
    requires Alike(w, w') && id in w.invoices
    ensures var after := w.invoices[id].(status := Confirming);
            Alike(SetInvoice(w, id, after), SetInvoice(w', id, after))
  {
    var after := w.invoices[id].(status := Confirming);
    AlikeAfter(w, w', SetInvoice(w, id, after), SetInvoice(w', id, after));
  }

  lemma ProcessAlike(cfg: Config, w: World, w': World, t: Transfer, quote: Quote, parked: bool, now: Time,
      target: Target)
    requires Alike(w, w') && (target.ToInvoice? ==> target.invoiceId in w.invoices)
    ensures Alike(Process(cfg, w, t, quote, parked, now, target).world,
      Process(cfg, w', t, quote, parked, now, target).world)
  {
    match target
    case ToPark(reason) => UnattributedAlike(cfg, w, w', t, reason, parked, now);
    case ToInvoice(id, _, same) =>
      var converted := if same then None else Convert(quote, w.invoices[id].terms.asset.decimals);
      if t.confirmations < quote.needed {
        ConfirmingAlike(w, w', id);
      } else if !same && converted.None? {
        UnattributedAlike(cfg, w, w', t, WrongAsset, parked, now);
      } else if HasPayment(w.payments, t.key) {
        ResolveAlike(w, w', t.key, id);
      } else {
        CreditAlike(cfg, w, w', NewPayment(t, id, converted, quote, now), parked);
      }
  }

  lemma AlikeKeepsQueueRow(w: World, w': World, ev: Event)
    requires Alike(w, w') && QueueKey(ev).Some? && !HasPayment(w.payments, QueueKey(ev).value)
    ensures Enabled(w, ev) <==> Enabled(w', ev)
  {
    var key := QueueKey(ev).value;
    assert SameRow(w, w', key);
    if ev.Sweep? && key in w.parked && w.parked[key].asset.Some? {
      SameTargets(w, w', Unparked(key, w.parked[key]), w.parked[key].seenAt, ev.now, ev.target);
    }
  }

  lemma SweepAlike(cfg: Config, w: World, w': World, key: TransferKey, quote: Quote, now: Time, target: Target)
    requires Alike(w, w') && !HasPayment(w.payments, key)
    ensures Alike(Apply(cfg, w, Sweep(key, quote, now, target)), Apply(cfg, w', Sweep(key, quote, now, target)))
  {
    AlikeKeepsQueueRow(w, w', Sweep(key, quote, now, target));
    assert SameRow(w, w', key);
    if Enabled(w, Sweep(key, quote, now, target)) {
      ProcessAlike(cfg, w, w', Unparked(key, w.parked[key]), quote, true, now, target);
    }
  }

  lemma AttachmentAlike(cfg: Config, w: World, w': World, key: TransferKey, id: Id, now: Time)
    requires Alike(w, w') && !HasPayment(w.payments, key)
    ensures Alike(Apply(cfg, w, Attachment(key, id, now)), Apply(cfg, w', Attachment(key, id, now)))
  {
    AlikeKeepsQueueRow(w, w', Attachment(key, id, now));
    assert SameRow(w, w', key);
    if Enabled(w, Attachment(key, id, now)) {
      AttachIsInsert(cfg, w, key, id, now);
      AttachIsInsert(cfg, w', key, id, now);
      CreditAlike(cfg, w, w', PaymentRow(key, id, w.parked[key].amount, None, w.parked[key].from, None, now, false),
        true);
    }
  }

  lemma ResolutionAlike(cfg: Config, w: World, w': World, key: TransferKey, resolution: Resolution)
    requires Alike(w, w') && !HasPayment(w.payments, key)
    ensures Alike(Apply(cfg, w, Resolve(key, resolution)), Apply(cfg, w', Resolve(key, resolution)))
  {
    AlikeKeepsQueueRow(w, w', Resolve(key, resolution));
    assert SameRow(w, w', key);
    AlikeAfter(w, w', Apply(cfg, w, Resolve(key, resolution)), Apply(cfg, w', Resolve(key, resolution)));
  }

  lemma PresentAlike(cfg: Config, w: World, w': World, ev: Event)
    requires Alike(w, w') && ev.Present?
    ensures Alike(Apply(cfg, w, ev), Apply(cfg, w', ev))
  {
    SameTargets(w, w', ev.t, ev.now, ev.now, ev.target);
    if Enabled(w, ev) { ProcessAlike(cfg, w, w', ev.t, ev.quote, false, ev.now, ev.target); }
  }

  lemma ReversalAlike(cfg: Config, w: World, w': World, key: TransferKey)
    requires Alike(w, w')
    ensures Alike(Reverse(cfg, w, key), Reverse(cfg, w', key))
  {
    ReverseKeepsPayments(cfg, w, key);
    ReverseKeepsPayments(cfg, w', key);
    AlikeAfter(w, w', Reverse(cfg, w, key), Reverse(cfg, w', key));
  }

  lemma TablesAlike(cfg: Config, w: World, w': World, ev: Event)
    requires Alike(w, w') && (ev.Issue? || ev.Expiry? || ev.Statement?)
    ensures Alike(Apply(cfg, w, ev), Apply(cfg, w', ev))
  {
    AlikeAfter(w, w', Apply(cfg, w, ev), Apply(cfg, w', ev));
  }

  /** The same call keeps tables alike. */
  lemma Lockstep(cfg: Config, w: World, w': World, ev: Event)
    requires Inv(cfg, w) && Inv(cfg, w') && Alike(w, w')
    ensures Alike(Apply(cfg, w, ev), Apply(cfg, w', ev))
  {
    if Repeats(w, ev) {
      RepeatIsInvisible(cfg, w, ev);
      RepeatIsInvisible(cfg, w', ev);
      AlikeTransitive(w, Apply(cfg, w, ev), Apply(cfg, w, ev));
      AlikeTransitive(w, w', Apply(cfg, w', ev));
      AlikeTransitive(Apply(cfg, w, ev), w, Apply(cfg, w', ev));
    } else {
      match ev
      case Present(_, _, _, _) => PresentAlike(cfg, w, w', ev);
      case Sweep(key, quote, now, target) => SweepAlike(cfg, w, w', key, quote, now, target);
      case Attachment(key, id, now) => AttachmentAlike(cfg, w, w', key, id, now);
      case Resolve(key, resolution) => ResolutionAlike(cfg, w, w', key, resolution);
      case Reversal(key) => ReversalAlike(cfg, w, w', key);
      case _ => TablesAlike(cfg, w, w', ev);
    }
  }

  /** The run with repetitions put in anywhere. */
  ghost predicate Pads(cfg: Config, w: World, events: seq<Event>, padded: seq<Event>)
    decreases |padded|
  {
    if padded == [] then events == []
    else
      var last, rest := padded[|padded| - 1], padded[..|padded| - 1];
      || (events != [] && events[|events| - 1] == last && Pads(cfg, w, events[..|events| - 1], rest))
      || (Repeats(Run(cfg, w, rest), last) && Pads(cfg, w, events, rest))
  }

  lemma {:induction false} PaddingIsInvisible(cfg: Config, w: World, events: seq<Event>, padded: seq<Event>)
    requires Inv(cfg, w) && Pads(cfg, w, events, padded)
    ensures Alike(Run(cfg, w, events), Run(cfg, w, padded))
    decreases |padded|
  {
    if padded != [] {
      var last, rest := padded[|padded| - 1], padded[..|padded| - 1];
      RunKeepsInv(cfg, w, rest);
      if events != [] && events[|events| - 1] == last && Pads(cfg, w, events[..|events| - 1], rest) {
        PaddingIsInvisible(cfg, w, events[..|events| - 1], rest);
        RunKeepsInv(cfg, w, events[..|events| - 1]);
        Lockstep(cfg, Run(cfg, w, events[..|events| - 1]), Run(cfg, w, rest), last);
      } else {
        PaddingIsInvisible(cfg, w, events, rest);
        RepeatIsInvisible(cfg, Run(cfg, w, rest), last);
        AlikeTransitive(Run(cfg, w, events), Run(cfg, w, rest), Run(cfg, w, padded));
      }
    }
  }

  /** Repetitions anywhere in a run from empty tables change no total, no status and no balance. */
  lemma RepetitionsDoNotCount(cfg: Config, events: seq<Event>, padded: seq<Event>, organization: Organization)
    requires Pads(cfg, EMPTY, events, padded)
    ensures var w, w' := Run(cfg, EMPTY, events), Run(cfg, EMPTY, padded);
            && w'.invoices == w.invoices && w'.payments == w.payments
            && Balance(w'.ledger, organization) == Balance(w.ledger, organization)
  {
    EmptyTables(cfg);
    PaddingIsInvisible(cfg, EMPTY, events, padded);
  }

  /** At a shared wallet, a final transfer presented again is reported as a duplicate. */
  lemma RepeatIsReportedDuplicate(cfg: Config, w: World, t: Transfer, quote: Quote, now: Time, target: Target)
    requires Inv(cfg, w) && HasPayment(w.payments, t.key) && t.confirmations >= quote.needed
    requires Matches(w, t, now, now, target) && AtSharedWallet(w, t)
    ensures target.ToInvoice? && target.invoiceId in w.invoices
    ensures Process(cfg, w, t, quote, false, now, target) == Processed(w, Duplicate)
  {
    ReplayTarget(w, t, now, now, target);
  }
}
