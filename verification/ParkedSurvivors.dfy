/**
 What becomes of a transfer that is parked as a stray, over any run: the rules of
 `PooledMatching` and the tables of `CreditingState` put together.
 */
module ParkedSurvivors {
  import opened Options
  import opened PooledMatching
  import opened CreditingState
  import opened CreditingRuns
  import opened CreditingSafety

  /** A transfer, as the rules see it. */
  function Seen(t: Transfer, seenAt: Time): ObservedTransfer {
    ObservedTransfer(t.amount, t.asset.decimals, t.asset.key, t.from, seenAt)
  }

  function CandidatesOf(w: World, t: Transfer, now: Time): set<CandidateInvoice> {
    CandidatesAt(w, t.key.chain, t.to, now)
  }

  function PriorsOf(w: World, t: Transfer, now: Time): set<PriorPayment> {
    PriorsAt(w, t.key.chain, t.to, now)
  }

  // ── Parking ────────────────────────────────────────────────────────────────

  /** At a shared wallet the target is the rules' and no other. */
  lemma OneTarget(w: World, t: Transfer, seenAt: Time, now: Time, target: Target)
    requires UniformModels(w) && AtSharedWallet(w, t)
    ensures Matches(w, t, seenAt, now, target) <==> target == PooledTarget(w, t, seenAt, now)
  {
    var id :| id in InvoicesAt(w, t.key.chain, t.to) && w.invoices[id].terms.model == Pooled;
    if target == PooledTarget(w, t, seenAt, now) { assert TargetBy(w, t, seenAt, now, id, target); }
  }

  /** A new transfer to a shared wallet, in a token the catalogue has, that is a stray when it is seen. */
  ghost predicate NewStray(cfg: Config, w: World, t: Transfer, now: Time) {
    && AtSharedWallet(w, t) && !HasPayment(w.payments, t.key) && t.key !in w.parked
    && cfg.queueWired && t.asset.key in cfg.catalogue && cfg.catalogue[t.asset.key] == t.asset
    && Stray(Seen(t, now), now, CandidatesOf(w, t, now), PriorsOf(w, t, now))
  }

  /** Its row in the queue. */
  function StrayRow(t: Transfer, now: Time): ParkedRow {
    ParkedRow(t.amount, Some(t.asset), t.to, t.from, Ambiguous, Resolution.Pending, now)
  }

  /** It is parked, and nothing else happens. */
  lemma StrayIsParked(cfg: Config, w: World, t: Transfer, quote: Quote, now: Time, target: Target)
    requires UniformModels(w) && NewStray(cfg, w, t, now)
    ensures Enabled(w, Present(t, quote, now, target)) <==> target == ToPark(Ambiguous)
    ensures Enabled(w, Present(t, quote, now, target)) ==>
              Next(cfg, w, Present(t, quote, now, target)) == w.(parked := w.parked[t.key := StrayRow(t, now)])
  {
    StraysAreParked(Seen(t, now), now, CandidatesOf(w, t, now), PriorsOf(w, t, now));
    OneTarget(w, t, now, now, target);
  }

  // ── What a run leaves of it ────────────────────────────────────────────────

  /** Rows of the queue stay, with all they say but how they were resolved. */
  ghost predicate QueueKept(before: map<TransferKey, ParkedRow>, after: map<TransferKey, ParkedRow>) {
    forall key :: key in before ==>
      key in after && after[key] == before[key].(resolution := after[key].resolution)
  }

  lemma ResolveKeepsQueue(w: World, key: TransferKey, id: Id)
    ensures QueueKept(w.parked, ResolveParked(w, key, id).parked)
  {}

  lemma UnattributedKeepsQueue(cfg: Config, w: World, t: Transfer, reason: UnmatchedReason, parked: bool, now: Time)
    ensures QueueKept(w.parked, Unattributed(cfg, w, t, reason, parked, now).world.parked)
  {}

  lemma ProcessKeepsQueue(cfg: Config, w: World, t: Transfer, quote: Quote, parked: bool, now: Time, target: Target)
    requires target.ToInvoice? ==> target.invoiceId in w.invoices
    ensures QueueKept(w.parked, Process(cfg, w, t, quote, parked, now, target).world.parked)
  {
    match target
    case ToPark(reason) => UnattributedKeepsQueue(cfg, w, t, reason, parked, now);
    case ToInvoice(id, _, same) =>
      var converted := if same then None else Convert(quote, w.invoices[id].terms.asset.decimals);
      if t.confirmations < quote.needed {
      } else if !same && converted.None? {
        UnattributedKeepsQueue(cfg, w, t, WrongAsset, parked, now);
      } else if HasPayment(w.payments, t.key) {
        ResolveKeepsQueue(w, t.key, id);
      } else {
        var p := NewPayment(t, id, converted, quote, now);
        InsertLeavesQueue(cfg, w, p);
        ResolveKeepsQueue(Insert(cfg, w, p), t.key, id);
      }
  }

  lemma StepKeepsQueue(cfg: Config, w: World, ev: Event)
    ensures QueueKept(w.parked, Apply(cfg, w, ev).parked)
  {
    if Enabled(w, ev) {
      match ev
      case Present(t, quote, now, target) => ProcessKeepsQueue(cfg, w, t, quote, false, now, target);
      case Sweep(key, quote, now, target) =>
        ProcessKeepsQueue(cfg, w, Unparked(key, w.parked[key]), quote, true, now, target);
      case Reversal(key) => ReverseKeepsPayments(cfg, w, key);
      case _ =>
    }
  }

  lemma KeptTwice(a: map<TransferKey, ParkedRow>, b: map<TransferKey, ParkedRow>, c: map<TransferKey, ParkedRow>)
    requires QueueKept(a, b) && QueueKept(b, c)
    ensures QueueKept(a, c)
  {}

  lemma {:induction false} RunKeepsQueue(cfg: Config, w: World, events: seq<Event>)
    ensures QueueKept(w.parked, Run(cfg, w, events).parked)
  {
    if events != [] {
      var before := Run(cfg, w, events[..|events| - 1]);
      RunKeepsQueue(cfg, w, events[..|events| - 1]);
      StepKeepsQueue(cfg, before, events[|events| - 1]);
      KeptTwice(w.parked, before.parked, Run(cfg, w, events).parked);
    }
  }

  /** Every invoice the run issues was created after the transfer was seen. */
  ghost predicate IssuedAfter(events: seq<Event>, seenAt: Time) {
    forall ev :: ev in events && ev.Issue? ==> ev.terms.createdAt > seenAt
  }

  ghost predicate NewOnesAfter(w: World, w': World, seenAt: Time) {
    forall id :: id in w'.invoices && id !in w.invoices ==> w'.invoices[id].terms.createdAt > seenAt
  }

  lemma StepIssuesAfter(cfg: Config, w: World, before: World, ev: Event, seenAt: Time)
    requires Inv(cfg, before) && NewOnesAfter(w, before, seenAt) && (ev.Issue? ==> ev.terms.createdAt > seenAt)
    ensures NewOnesAfter(w, Apply(cfg, before, ev), seenAt)
  {
    StepKeepsInv(cfg, before, ev);
    if !ev.Issue? { OnlyIssueAdds(cfg, before, ev); }
  }

  lemma {:induction false} RunIssuesAfter(cfg: Config, w: World, events: seq<Event>, seenAt: Time)
    requires Inv(cfg, w) && IssuedAfter(events, seenAt)
    ensures NewOnesAfter(w, Run(cfg, w, events), seenAt)
  {
    if events != [] {
      var rest, last := events[..|events| - 1], events[|events| - 1];
      assert last in events && forall ev :: ev in rest ==> ev in events;
      RunIssuesAfter(cfg, w, rest, seenAt);
      RunKeepsInv(cfg, w, rest);
      StepIssuesAfter(cfg, w, Run(cfg, w, rest), last, seenAt);
    }
  }

  /** So the candidates of a later moment are earlier ones, newcomers, or long closed. */
  lemma CandidatesLater(w: World, w': World, t: Transfer, seenAt: Time, now: Time, later: Time)
    requires KeepsTerms(w.invoices, w'.invoices) && NewOnesAfter(w, w', seenAt) && now <= later
    ensures Later(Seen(t, seenAt), now, CandidatesOf(w, t, now), CandidatesOf(w', t, later))
  {
    forall c | c in CandidatesOf(w', t, later) && Eligible(Seen(t, seenAt), c)
      ensures WasThere(c, CandidatesOf(w, t, now)) || c.expiresAt <= now - LATE_PAYMENT_GRACE_MS
    {
      assert c.id in w.invoices;
      if c.expiresAt > now - LATE_PAYMENT_GRACE_MS {
        var d := AsCandidate(c.id, w.invoices[c.id]);
        assert d in CandidatesOf(w, t, now) && SameTerms(c, d);
      }
    }
  }

  // ── What the sweep makes of it ─────────────────────────────────────────────

  lemma CreditsAndCloses(cfg: Config, w: World, p: PaymentRow)
    requires p.invoiceId in w.invoices && !HasPayment(w.payments, p.key)
    requires p.key in w.parked && w.parked[p.key].resolution == Resolution.Pending
    ensures Settles(ResolveParked(Insert(cfg, w, p), p.key, p.invoiceId), p)
  {
    var payments := w.payments + [p];
    assert payments[|w.payments|] == p;
    AppendHasPayment(w.payments, p, p.key);
    assert forall i :: 0 <= i < |w.payments| ==> payments[i].key != p.key;
  }

  /** The transfer has this payment row, and its queue row is attached to the invoice. */
  ghost predicate Settles(w: World, p: PaymentRow) {
    && HasPayment(w.payments, p.key) && w.payments[PlaceOf(w.payments, p.key)] == p
    && p.key in w.parked && w.parked[p.key].resolution == Attached(p.invoiceId)
  }

  /** Where the sweep should send a stray that this invoice is left for. */
  function SurvivorTarget(t: Transfer, survivor: CandidateInvoice): Target {
    ToInvoice(survivor.id, ByRule(SoleOpen), survivor.assetKey == t.asset.key)
  }

  /** What a stray counts for at an invoice in this token. */
  function CountsFor(t: Transfer, survivor: CandidateInvoice, quote: Quote): Option<nat> {
    if survivor.assetKey == t.asset.key then None else Convert(quote, survivor.decimals)
  }

  /**
   What the sweep makes of a stray sent to the survivor: credited, by value if in another
   token, or left for later.
   */
  ghost predicate SweptTo(cfg: Config, w: World, t: Transfer, quote: Quote, now: Time, survivor: CandidateInvoice)
    requires Enabled(w, Sweep(t.key, quote, now, SurvivorTarget(t, survivor)))
  {
    var after := Next(cfg, w, Sweep(t.key, quote, now, SurvivorTarget(t, survivor)));
    var credited := CountsFor(t, survivor, quote);
    if survivor.assetKey != t.asset.key && credited.None? then after == w
    else Settles(after, NewPayment(t, survivor.id, credited, quote, now))
  }

  lemma ProcessedTo(cfg: Config, w: World, t: Transfer, quote: Quote, now: Time, survivor: CandidateInvoice)
    requires survivor.id in w.invoices && AsCandidate(survivor.id, w.invoices[survivor.id]) == survivor
    requires !HasPayment(w.payments, t.key) && t.confirmations >= quote.needed
    requires t.key in w.parked && w.parked[t.key].resolution == Resolution.Pending
    ensures var after := Process(cfg, w, t, quote, true, now, SurvivorTarget(t, survivor)).world;
            var credited := CountsFor(t, survivor, quote);
            if survivor.assetKey != t.asset.key && credited.None? then after == w
            else Settles(after, NewPayment(t, survivor.id, credited, quote, now))
  {
    var credited := CountsFor(t, survivor, quote);
    if survivor.assetKey == t.asset.key || credited.Some? {
      CreditsAndCloses(cfg, w, NewPayment(t, survivor.id, credited, quote, now));
    }
  }

  /** Of the invoices at the stray's address that are as old as it, this one alone is open. */
  ghost predicate OnlyOneOpen(w: World, t: Transfer, seenAt: Time, now: Time, survivor: CandidateInvoice) {
    OpenOnes(Seen(t, seenAt), now, CandidatesOf(w, t, now)) == {survivor}
  }

  /** The invoices the stray's sender is completing. */
  function CompletingAt(w: World, t: Transfer, seenAt: Time, now: Time): set<CandidateInvoice> {
    Completing(Seen(t, seenAt), now, CandidatesOf(w, t, now), PriorsOf(w, t, now))
  }

  /** The rules' target for a stray that one invoice is left open for. */
  lemma TargetIsSurvivor(w: World, w': World, t: Transfer, seenAt: Time, now: Time, later: Time,
        survivor: CandidateInvoice)
    requires Stray(Seen(t, seenAt), now, CandidatesOf(w, t, now), PriorsOf(w, t, now)) && now <= later
    requires Later(Seen(t, seenAt), now, CandidatesOf(w, t, now), CandidatesOf(w', t, later))
    requires OnlyOneOpen(w', t, seenAt, later, survivor) && !HasPayment(w'.payments, t.key)
    ensures survivor.id in w'.invoices && AsCandidate(survivor.id, w'.invoices[survivor.id]) == survivor
    ensures PooledTarget(w', t, seenAt, later) == SurvivorTarget(t, survivor)
       <==> CompletingAt(w', t, seenAt, later) == {}
  {
    SurvivorGetsTheStray(Seen(t, seenAt), now, later, CandidatesOf(w, t, now), PriorsOf(w, t, now),
                         CandidatesOf(w', t, later), PriorsOf(w', t, later), survivor);
    assert survivor in OpenOnes(Seen(t, seenAt), later, CandidatesOf(w', t, later));
  }

  // ── The whole story of a stray ─────────────────────────────────────────────

  /** The tables once the stray is in the queue. */
  function Queued(w: World, t: Transfer, now: Time): World {
    w.(parked := w.parked[t.key := StrayRow(t, now)])
  }

  /** Neither resolved nor credited. */
  predicate Undecided(w: World, key: TransferKey) {
    key in w.parked && w.parked[key].resolution == Resolution.Pending && !HasPayment(w.payments, key)
  }

  /** What is known of the stray's row and of the invoices after any run, while it is undecided. */
  lemma StrayAfterRun(cfg: Config, w: World, t: Transfer, now: Time, events: seq<Event>, later: Time)
    requires Inv(cfg, w) && NewStray(cfg, w, t, now) && IssuedAfter(events, now) && now <= later
    requires Undecided(Run(cfg, Queued(w, t, now), events), t.key)
    ensures var w' := Run(cfg, Queued(w, t, now), events);
            && Inv(cfg, w') && KeepsTerms(w.invoices, w'.invoices)
            && w'.parked[t.key] == StrayRow(t, now) && PooledAddress(w', t.key.chain, t.to)
            && Later(Seen(t, now), now, CandidatesOf(w, t, now), CandidatesOf(w', t, later))
  {
    var start, w' := Queued(w, t, now), Run(cfg, Queued(w, t, now), events);
    var arrival := Present(t, Quote(None, None, 0), now, ToPark(Ambiguous));
    StrayIsParked(cfg, w, t, Quote(None, None, 0), now, ToPark(Ambiguous));
    StepKeepsInv(cfg, w, arrival);
    assert Apply(cfg, w, arrival) == start;
    RunKeepsInv(cfg, start, events);
    RunKeepsQueue(cfg, start, events);
    assert t.key in start.parked;
    RunIssuesAfter(cfg, start, events, now);
    CandidatesLater(w, w', t, now, now, later);
    assert RowSound(w', t.key, w'.parked[t.key]);
  }

  /** The sweep's target for an undecided stray is the rules' target for the transfer first seen. */
  lemma SweepTarget(w: World, t: Transfer, quote: Quote, now: Time, later: Time, target: Target)
    requires UniformModels(w) && PooledAddress(w, t.key.chain, t.to) && quote.needed <= MAX_SAFE_INTEGER
    requires t.key in w.parked && w.parked[t.key] == StrayRow(t, now)
    ensures Enabled(w, Sweep(t.key, quote, later, target)) <==> target == PooledTarget(w, t, now, later)
  {
    var u := Unparked(t.key, StrayRow(t, now));
    OneTarget(w, u, now, later, target);
    assert PooledTarget(w, u, now, later) == PooledTarget(w, t, now, later);
  }

  /** The sweep has no other target for the stray than the survivor, and credits it there. */
  ghost predicate SweepGoesTo(cfg: Config, w: World, t: Transfer, quote: Quote, now: Time, survivor: CandidateInvoice) {
    && (forall chosen :: Enabled(w, Sweep(t.key, quote, now, chosen)) <==> chosen == SurvivorTarget(t, survivor))
    && SweptTo(cfg, w, t, quote, now, survivor)
  }

  lemma SweepIsProcess(cfg: Config, w: World, t: Transfer, quote: Quote, now: Time, later: Time,
                       survivor: CandidateInvoice)
    requires Undecided(w, t.key) && w.parked[t.key] == StrayRow(t, now)
    requires survivor.id in w.invoices && AsCandidate(survivor.id, w.invoices[survivor.id]) == survivor
    requires Enabled(w, Sweep(t.key, quote, later, SurvivorTarget(t, survivor)))
    ensures SweptTo(cfg, w, t, quote, later, survivor)
  {
    ProcessedTo(cfg, w, Unparked(t.key, StrayRow(t, now)), quote, later, survivor);
  }

  lemma SweptAsTargeted(cfg: Config, w: World, t: Transfer, quote: Quote, now: Time, later: Time,
                        survivor: CandidateInvoice)
    requires UniformModels(w) && PooledAddress(w, t.key.chain, t.to) && quote.needed <= MAX_SAFE_INTEGER
    requires Undecided(w, t.key) && w.parked[t.key] == StrayRow(t, now)
    requires survivor.id in w.invoices && AsCandidate(survivor.id, w.invoices[survivor.id]) == survivor
    ensures SweepGoesTo(cfg, w, t, quote, later, survivor)
       <==> PooledTarget(w, t, now, later) == SurvivorTarget(t, survivor)
  {
    forall chosen
      ensures Enabled(w, Sweep(t.key, quote, later, chosen)) <==> chosen == PooledTarget(w, t, now, later)
    {
      SweepTarget(w, t, quote, now, later, chosen);
    }
    if Enabled(w, Sweep(t.key, quote, later, SurvivorTarget(t, survivor))) {
      SweepIsProcess(cfg, w, t, quote, now, later, survivor);
    }
  }

  /**
   A stray is parked, any calls follow, and one invoice is left open for it: the sweep then
   credits that invoice, at the transfer's amount or by value, exactly when the sender is not
   by then completing some invoice.
   */
  lemma SweepCreditsTheSurvivor(cfg: Config, w: World, t: Transfer, now: Time, events: seq<Event>,
                                quote: Quote, later: Time, survivor: CandidateInvoice)
    requires Inv(cfg, w) && NewStray(cfg, w, t, now) && IssuedAfter(events, now) && now <= later
    requires Undecided(Run(cfg, Queued(w, t, now), events), t.key) && quote.needed <= MAX_SAFE_INTEGER
    requires OnlyOneOpen(Run(cfg, Queued(w, t, now), events), t, now, later, survivor)
    ensures var w' := Run(cfg, Queued(w, t, now), events);
            SweepGoesTo(cfg, w', t, quote, later, survivor) <==> CompletingAt(w', t, now, later) == {}
  {
    var w' := Run(cfg, Queued(w, t, now), events);
    StrayAfterRun(cfg, w, t, now, events, later);
    TargetIsSurvivor(w, w', t, now, now, later, survivor);
    SweptAsTargeted(cfg, w', t, quote, now, later, survivor);
  }

  // ── Without new evidence ───────────────────────────────────────────────────

  /** No payment was withdrawn, and none came from the sender. */
  ghost predicate QuietPayer(before: seq<PaymentRow>, after: seq<PaymentRow>, from: Option<string>) {
    before <= after && forall i :: |before| <= i < |after| ==> after[i].from != from
  }

  /** What the sender paid before counts for something. */
  ghost predicate PaidSomething(payments: seq<PaymentRow>, from: Option<string>) {
    forall p :: p in payments && p.from == from && !p.reversed ==> Counted(p) > 0
  }

  lemma {:induction false} MorePaid(before: seq<PaymentRow>, after: seq<PaymentRow>, id: Id)
    requires before <= after
    ensures AmountPaid(before, id) <= AmountPaid(after, id)
  {
    if |before| < |after| {
      MorePaid(before, after[..|after| - 1], id);
    } else {
      assert before == after;
    }
  }

  lemma {:induction false} RowIsPaid(payments: seq<PaymentRow>, p: PaymentRow)
    requires p in payments && !p.reversed
    ensures AmountPaid(payments, p.invoiceId) >= Counted(p)
  {
    var n := |payments| - 1;
    if payments[n] != p { RowIsPaid(payments[..n], p); }
  }

  /** An invoice that is short, and was already paid part of, was short before. */
  lemma WasShortBefore(w: World, w': World, id: Id)
    requires Core(w) && Core(w') && id in w.invoices && w.payments <= w'.payments && KeepsTerms(w.invoices, w'.invoices)
    requires AmountPaid(w.payments, id) > 0 && Toppable(w'.invoices[id].status)
    ensures w.invoices[id].status == Underpaid && w'.invoices[id].status == Underpaid
  {
    MorePaid(w.payments, w'.payments, id);
    assert Agrees(w.payments, id, w.invoices[id]) && Agrees(w'.payments, id, w'.invoices[id]);
  }

  /** A payment the rules see is a row of the table. */
  lemma PriorIsRow(w: World, t: Transfer, now: Time, prior: PriorPayment) returns (i: nat)
    requires prior in PriorsOf(w, t, now)
    ensures i < |w.payments| && IsPrior(w, t.key.chain, t.to, now, w.payments[i])
    ensures w.payments[i].invoiceId == prior.invoiceId && w.payments[i].from == prior.from
    ensures w.payments[i].creditedAt == prior.creditedAt
  {
    i :| 0 <= i < |w.payments| && IsPrior(w, t.key.chain, t.to, now, w.payments[i])
      && PriorPayment(w.payments[i].invoiceId, w.payments[i].from, w.payments[i].creditedAt) == prior;
  }

  /** A live payment of the sender's shows that they are completing an invoice that is short. */
  lemma RowShowsCompleting(w: World, t: Transfer, now: Time, i: nat)
    requires i < |w.payments| && t.from.Some? && w.payments[i].from == t.from
    requires IsPrior(w, t.key.chain, t.to, now, w.payments[i])
    requires w.invoices[w.payments[i].invoiceId].status == Underpaid
    requires w.invoices[w.payments[i].invoiceId].terms.createdAt <= now
    ensures CompletingAt(w, t, now, now) != {}
  {
    var p := w.payments[i];
    var c := AsCandidate(p.invoiceId, w.invoices[p.invoiceId]);
    assert PriorPayment(p.invoiceId, p.from, p.creditedAt) in PriorsOf(w, t, now);
    assert c in CandidatesOf(w, t, now);
    assert c in CompletingAt(w, t, now, now);
  }

  /** So with no new evidence, an invoice the sender is completing is one they were completing. */
  lemma CompletedBefore(w: World, w': World, t: Transfer, now: Time, later: Time, c: CandidateInvoice)
    requires Core(w) && Core(w') && KeepsTerms(w.invoices, w'.invoices) && now <= later
    requires QuietPayer(w.payments, w'.payments, t.from) && PaidSomething(w.payments, t.from)
    requires c in CompletingAt(w', t, now, later)
    ensures CompletingAt(w, t, now, now) != {}
  {
    var prior :| prior in PriorsOf(w', t, later) && prior.invoiceId == c.id && prior.from == t.from;
    var i := PriorIsRow(w', t, later, prior);
    assert w.payments[i] == w'.payments[i] && Homed(w.invoices, w.payments);
    RowIsPaid(w.payments, w.payments[i]);
    WasShortBefore(w, w', c.id);
    RowShowsCompleting(w, t, now, i);
  }

  /** A stray whose sender made no other payment, while nothing was withdrawn, goes to the survivor. */
  lemma QuietStrayReachesTheSurvivor(cfg: Config, w: World, t: Transfer, now: Time, events: seq<Event>,
                                     quote: Quote, later: Time, survivor: CandidateInvoice)
    requires Inv(cfg, w) && NewStray(cfg, w, t, now) && IssuedAfter(events, now) && now <= later
    requires Undecided(Run(cfg, Queued(w, t, now), events), t.key) && quote.needed <= MAX_SAFE_INTEGER
    requires OnlyOneOpen(Run(cfg, Queued(w, t, now), events), t, now, later, survivor)
    requires QuietPayer(w.payments, Run(cfg, Queued(w, t, now), events).payments, t.from)
    requires PaidSomething(w.payments, t.from)
    ensures SweepGoesTo(cfg, Run(cfg, Queued(w, t, now), events), t, quote, later, survivor)
  {
    var w' := Run(cfg, Queued(w, t, now), events);
    SweepCreditsTheSurvivor(cfg, w, t, now, events, quote, later, survivor);
    StrayAfterRun(cfg, w, t, now, events, later);
    assert CompletingAt(w, t, now, now) == {};
    if c :| c in CompletingAt(w', t, now, later) {
      CompletedBefore(w, w', t, now, later, c);
      assert false;
    }
  }
}
