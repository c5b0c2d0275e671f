/**
 Recoveries over whole runs of the crediting tables: how every call moves an organisation's
 balance, exactly when one lifts it above zero, and that recoveries sized when their invoices
 are issued never do when the balance has not risen between the issue and the payment.
 */
module RecoveryRuns {
  import opened Options
  import opened PooledMatching
  import opened CreditingState
  import opened CreditingRuns
  import opened CreditingSafety
  import opened Fees = Commission

  // ── What a call adds to a balance ──────────────────────────────────────────

  /** The payment row a transfer to this target gets, if it is credited now. */
  function Credited(w: World, t: Transfer, quote: Quote, now: Time, target: Target): Option<PaymentRow> {
    if target.ToPark? || target.invoiceId !in w.invoices || t.confirmations < quote.needed then None
    else
      var decimals := w.invoices[target.invoiceId].terms.asset.decimals;
      var converted := if target.sameAsset then None else Convert(quote, decimals);
      if (!target.sameAsset && converted.None?) || HasPayment(w.payments, t.key) then None
      else Some(NewPayment(t, target.invoiceId, converted, quote, now))
  }

  /** What a call inserts, if it inserts a payment. */
  ghost function Inserted(w: World, ev: Event): Option<PaymentRow>
    requires Enabled(w, ev)
  {
    match ev
    case Present(t, quote, now, target) => Credited(w, t, quote, now, target)
    case Sweep(key, quote, now, target) => Credited(w, Unparked(key, w.parked[key]), quote, now, target)
    case _ => None
  }

  /** A recovery less a commission, for a payment of the organisation's. */
  function Gain(w: World, p: Option<PaymentRow>, organization: Organization): int {
    if p.None? then 0 else NetOf(w.invoices, p.value, organization)
  }

  /** The commission a reversal gives back. */
  function GivenBack(w: World, key: TransferKey, organization: Organization): int {
    var i := PlaceOf(w.payments, key);
    if i == |w.payments| || w.payments[i].reversed || !Belongs(w.invoices, w.payments[i], organization) then 0
    else Commission(w.invoices, w.payments[i])
  }

  /** What a call adds to an organisation's balance: all of it is known before the call. */
  ghost function Delta(w: World, ev: Event, organization: Organization): int
    requires Enabled(w, ev)
  {
    match ev
    case Reversal(key) => GivenBack(w, key, organization)
    case Statement(o, kind, amount) => if o == organization then amount else 0
    case _ => Gain(w, Inserted(w, ev), organization)
  }

  lemma InsertMoves(cfg: Config, w: World, p: PaymentRow, organization: Organization)
    requires cfg.ledgerWired && LedgerKeyed(cfg, w)
    requires p.invoiceId in w.invoices && !HasPayment(w.payments, p.key) && !p.reversed
    ensures Balance(Insert(cfg, w, p).ledger, organization)
         == Balance(w.ledger, organization) + NetOf(w.invoices, p, organization)
  {
    NoEntriesWithoutPayment(cfg, w, p.key, Accrual);
    NoEntriesWithoutPayment(cfg, w, p.key, Recovery);
    NewEntries(w.ledger, w.invoices[p.invoiceId].terms, p, organization, p.key);
  }

  lemma ProcessMoves(cfg: Config, w: World, t: Transfer, quote: Quote, parked: bool, now: Time, target: Target,
                     organization: Organization)
    requires cfg.ledgerWired && LedgerKeyed(cfg, w) && (target.ToInvoice? ==> target.invoiceId in w.invoices)
    ensures Balance(Process(cfg, w, t, quote, parked, now, target).world.ledger, organization)
         == Balance(w.ledger, organization) + Gain(w, Credited(w, t, quote, now, target), organization)
  {
    var p := Credited(w, t, quote, now, target);
    if p.Some? { InsertMoves(cfg, w, p.value, organization); }
  }

  lemma ReversedLedger(cfg: Config, w: World, key: TransferKey)
    requires cfg.ledgerWired && Homed(w.invoices, w.payments)
    ensures var i := PlaceOf(w.payments, key);
            Reverse(cfg, w, key).ledger
              == if i == |w.payments| || w.payments[i].reversed then w.ledger else ReversedAt(cfg, w, i).ledger
  {}

  lemma ReverseMoves(cfg: Config, w: World, key: TransferKey, organization: Organization)
    requires cfg.ledgerWired && LedgerMatches(w) && Homed(w.invoices, w.payments)
    ensures Balance(Reverse(cfg, w, key).ledger, organization)
         == Balance(w.ledger, organization) + GivenBack(w, key, organization)
  {
    var i := PlaceOf(w.payments, key);
    ReversedLedger(cfg, w, key);
    if i < |w.payments| && !w.payments[i].reversed { ReverseEntry(cfg, w, i, organization, key); }
  }

  /** Every call moves a balance by exactly that. */
  lemma BalanceMoves(cfg: Config, w: World, ev: Event, organization: Organization)
    requires cfg.ledgerWired && Core(w) && Books(cfg, w) && Enabled(w, ev)
    ensures Balance(Next(cfg, w, ev).ledger, organization)
         == Balance(w.ledger, organization) + Delta(w, ev, organization)
  {
    match ev
    case Present(t, quote, now, target) => ProcessMoves(cfg, w, t, quote, false, now, target, organization);
    case Sweep(key, quote, now, target) =>
      ProcessMoves(cfg, w, Unparked(key, w.parked[key]), quote, true, now, target, organization);
    case Reversal(key) => ReverseMoves(cfg, w, key, organization);
    case Statement(o, kind, amount) => EntryAppend(w.ledger, Entry(o, kind, amount, None), organization);
    case _ =>
  }

  /** A call leaves the organisation no credit exactly when what it adds is at most the debt. */
  lemma StaysOwed(cfg: Config, w: World, ev: Event, organization: Organization)
    requires cfg.ledgerWired && Inv(cfg, w) && Enabled(w, ev)
    ensures Balance(Next(cfg, w, ev).ledger, organization) <= 0
       <==> Delta(w, ev, organization) <= -Balance(w.ledger, organization)
  {
    BalanceMoves(cfg, w, ev, organization);
  }

  /**
   A reversal lifts a debt above zero exactly when the payment was live, its own, and its
   commission was more than is owed.
   */
  lemma ReversalLifts(cfg: Config, w: World, key: TransferKey, organization: Organization)
    requires cfg.ledgerWired && Inv(cfg, w) && Balance(w.ledger, organization) <= 0
    ensures Balance(Reverse(cfg, w, key).ledger, organization) > 0
       <==> HasPayment(w.payments, key) && !Withdrawn(w, key)
            && Belongs(w.invoices, w.payments[PlaceOf(w.payments, key)], organization)
            && Commission(w.invoices, w.payments[PlaceOf(w.payments, key)]) > -Balance(w.ledger, organization)
  {
    ReverseMoves(cfg, w, key, organization);
  }

  // ── Recoveries sized at issue ──────────────────────────────────────────────

  /** How an invoice's recovery was sized: what it was quoted at, and the balance it was read from. */
  datatype Sizing = Sizing(quoted: Quoted, balance: int)

  /** Invoices of the organisation carry at most the recovery they were sized for. */
  ghost predicate SizedAsIssued(w: World, organization: Organization, sizings: map<Id, Sizing>) {
    forall id :: id in w.invoices && w.invoices[id].terms.organization == organization ==>
      IsSized(id, w.invoices[id].terms, sizings)
  }

  predicate IsSized(id: Id, terms: Terms, sizings: map<Id, Sizing>) {
    id in sizings && terms.recoveryBps <= sizings[id].quoted.Bps(sizings[id].balance)
  }

  /** What the payments on an invoice were worth, reversed ones too: what they recovered stays. */
  function ValuesOn(payments: seq<PaymentRow>, id: Id): seq<nat> {
    if payments == [] then []
    else
      var n := |payments| - 1;
      var value := payments[n].valueUsdMicros;
      ValuesOn(payments[..n], id) + if payments[n].invoiceId == id && value.Some? then [value.value] else []
  }

  /** With what was paid on its invoice before, the payment is within the quote; and no one else raised the balance. */
  ghost predicate WithinSizing(w: World, p: PaymentRow, organization: Organization, s: Sizing)
    requires p.invoiceId in w.invoices
  {
    var before := ValuesOn(w.payments, p.invoiceId);
    && Total(before) + (if p.valueUsdMicros.Some? then p.valueUsdMicros.value else 0) <= s.quoted.value
    && Balance(w.ledger, organization) <= s.balance + Cuts(before, w.invoices[p.invoiceId].terms.recoveryBps)
  }

  /** A payment that recovers more than it is charged finds its recovery still sized for it. */
  ghost predicate PaidInTurn(w: World, p: PaymentRow, organization: Organization, sizings: map<Id, Sizing>) {
    NetOf(w.invoices, p, organization) > 0 ==>
      p.invoiceId in sizings && WithinSizing(w, p, organization, sizings[p.invoiceId])
  }

  /**
   What is asked of each call: sizing from the ledger at issue, payments in turn, and nothing
   else added beyond the debt.
   */
  ghost predicate InTurn(w: World, ev: Event, organization: Organization, sizings: map<Id, Sizing>)
    requires Enabled(w, ev)
  {
    match ev
    case Issue(id, terms) =>
      terms.organization == organization ==>
        IsSized(id, terms, sizings) && sizings[id].balance == Balance(w.ledger, organization)
    case Reversal(key) => GivenBack(w, key, organization) <= -Balance(w.ledger, organization)
    case Statement(o, kind, amount) => o == organization ==> amount <= -Balance(w.ledger, organization)
    case _ => Inserted(w, ev).Some? ==> PaidInTurn(w, Inserted(w, ev).value, organization, sizings)
  }

  lemma CutGrowsWithRate(value: nat, bps: nat, more: nat)
    requires bps <= more
    ensures Cut(value, bps) <= Cut(value, more)
  {
    Products(bps, more, value);
    CutBounds(value, bps);
    CutBounds(value, more);
  }

  /** The parts of one invoice together recover no more than was owed when it was sized. */
  lemma PartsFit(before: seq<nat>, value: nat, bps: nat, s: Sizing)
    requires bps <= s.quoted.Bps(s.balance) && s.balance <= 0 && Total(before) + value <= s.quoted.value
    ensures Cuts(before, bps) + Cut(value, bps) <= -s.balance
  {
    var parts, total := before + [value], Total(before) + value;
    assert parts[..|before|] == before;
    CutsFitTotal(parts, bps);
    CutGrowsWithRate(total, bps, s.quoted.Bps(s.balance));
    RecoveryFitsDebt(s.balance, s.quoted.planFeeBps, s.quoted.value, s.quoted.networkFeeBps, total);
  }

  /** A recovery sized at issue fits the debt as long as only its own invoice has raised the balance since. */
  lemma PaymentInTurnFits(w: World, p: PaymentRow, organization: Organization, sizings: map<Id, Sizing>)
    requires SizedAsIssued(w, organization, sizings) && PaidInTurn(w, p, organization, sizings)
    requires Balance(w.ledger, organization) <= 0 && !p.reversed
    ensures NetOf(w.invoices, p, organization) <= -Balance(w.ledger, organization)
  {
    if NetOf(w.invoices, p, organization) > 0 {
      var s, terms := sizings[p.invoiceId], w.invoices[p.invoiceId].terms;
      assert IsSized(p.invoiceId, terms, sizings);
      if s.balance <= 0 {
        PartsFit(ValuesOn(w.payments, p.invoiceId), p.valueUsdMicros.value, terms.recoveryBps, s);
      }
    }
  }

  ghost predicate OwedAndSized(cfg: Config, w: World, organization: Organization, sizings: map<Id, Sizing>) {
    Inv(cfg, w) && Balance(w.ledger, organization) <= 0 && SizedAsIssued(w, organization, sizings)
  }

  lemma StepKeepsSized(cfg: Config, w: World, ev: Event, organization: Organization, sizings: map<Id, Sizing>)
    requires Inv(cfg, w) && SizedAsIssued(w, organization, sizings)
    requires Enabled(w, ev) && InTurn(w, ev, organization, sizings)
    ensures SizedAsIssued(Next(cfg, w, ev), organization, sizings)
  {
    StepKeepsInv(cfg, w, ev);
    if !ev.Issue? { OnlyIssueAdds(cfg, w, ev); }
    SizedLater(w, Next(cfg, w, ev), ev, organization, sizings);
  }

  lemma SizedLater(w: World, w': World, ev: Event, organization: Organization, sizings: map<Id, Sizing>)
    requires SizedAsIssued(w, organization, sizings) && KeepsTerms(w.invoices, w'.invoices)
    requires Enabled(w, ev) && InTurn(w, ev, organization, sizings)
    requires if ev.Issue? then w'.invoices.Keys == w.invoices.Keys + {ev.id} && w'.invoices[ev.id].terms == ev.terms
             else w'.invoices.Keys == w.invoices.Keys
    ensures SizedAsIssued(w', organization, sizings)
  {
    forall id | id in w'.invoices && w'.invoices[id].terms.organization == organization
      ensures IsSized(id, w'.invoices[id].terms, sizings)
    {
      if id in w.invoices { assert IsSized(id, w.invoices[id].terms, sizings); }
    }
  }

  lemma DeltaInTurn(w: World, ev: Event, organization: Organization, sizings: map<Id, Sizing>)
    requires SizedAsIssued(w, organization, sizings) && Balance(w.ledger, organization) <= 0
    requires Enabled(w, ev) && InTurn(w, ev, organization, sizings)
    ensures Delta(w, ev, organization) <= -Balance(w.ledger, organization)
  {
    if Inserted(w, ev).Some? { PaymentInTurnFits(w, Inserted(w, ev).value, organization, sizings); }
  }

  lemma StepStaysOwed(cfg: Config, w: World, ev: Event, organization: Organization, sizings: map<Id, Sizing>)
    requires cfg.ledgerWired && OwedAndSized(cfg, w, organization, sizings)
    requires Enabled(w, ev) ==> InTurn(w, ev, organization, sizings)
    ensures OwedAndSized(cfg, Apply(cfg, w, ev), organization, sizings)
  {
    if Enabled(w, ev) {
      StepKeepsInv(cfg, w, ev);
      StepKeepsSized(cfg, w, ev, organization, sizings);
      DeltaInTurn(w, ev, organization, sizings);
      StaysOwed(cfg, w, ev, organization);
    }
  }

  // ── Exactly when a run leaves nothing owed to the organisation ─────────────

  /** What the call adds, if it is possible when it comes, is at most the debt it finds. */
  ghost predicate AddsNoMoreThanOwed(cfg: Config, w: World, ev: Event, organization: Organization) {
    Enabled(w, ev) ==> Delta(w, ev, organization) <= -Balance(w.ledger, organization)
  }

  /** The balance is at most zero at every moment of the run. */
  ghost predicate OwesThroughout(cfg: Config, events: seq<Event>, organization: Organization) {
    forall i :: 0 <= i <= |events| ==> Balance(Run(cfg, EMPTY, events[..i]).ledger, organization) <= 0
  }

  lemma RunOneMore(cfg: Config, events: seq<Event>, i: nat)
    requires i < |events|
    ensures Run(cfg, EMPTY, events[..i + 1]) == Apply(cfg, Run(cfg, EMPTY, events[..i]), events[i])
  {
    assert events[..i + 1][..i] == events[..i];
  }

  lemma OwedOneMore(cfg: Config, events: seq<Event>, organization: Organization, i: nat)
    requires cfg.ledgerWired && i < |events| && Balance(Run(cfg, EMPTY, events[..i]).ledger, organization) <= 0
    ensures Balance(Run(cfg, EMPTY, events[..i + 1]).ledger, organization) <= 0
       <==> AddsNoMoreThanOwed(cfg, Run(cfg, EMPTY, events[..i]), events[i], organization)
  {
    var w := Run(cfg, EMPTY, events[..i]);
    EmptyTables(cfg);
    RunKeepsInv(cfg, EMPTY, events[..i]);
    RunOneMore(cfg, events, i);
    if Enabled(w, events[i]) { StaysOwed(cfg, w, events[i], organization); }
  }

  lemma {:induction false} OwedUpTo(cfg: Config, events: seq<Event>, organization: Organization, n: nat)
    requires cfg.ledgerWired && n <= |events|
    requires forall i :: 0 <= i < n ==>
               AddsNoMoreThanOwed(cfg, Run(cfg, EMPTY, events[..i]), events[i], organization)
    ensures Balance(Run(cfg, EMPTY, events[..n]).ledger, organization) <= 0
  {
    if n > 0 {
      OwedUpTo(cfg, events, organization, n - 1);
      OwedOneMore(cfg, events, organization, n - 1);
    }
  }

  /** A run never leaves the organisation owed exactly when no call adds more than is owed when it comes. */
  lemma OwedThroughoutExactly(cfg: Config, events: seq<Event>, organization: Organization)
    requires cfg.ledgerWired
    ensures OwesThroughout(cfg, events, organization)
       <==> forall i :: 0 <= i < |events| ==>
              AddsNoMoreThanOwed(cfg, Run(cfg, EMPTY, events[..i]), events[i], organization)
  {
    if OwesThroughout(cfg, events, organization) {
      forall i: nat | i < |events|
        ensures AddsNoMoreThanOwed(cfg, Run(cfg, EMPTY, events[..i]), events[i], organization)
      {
        assert Balance(Run(cfg, EMPTY, events[..i + 1]).ledger, organization) <= 0;
        OwedOneMore(cfg, events, organization, i);
      }
    }
    if forall i :: 0 <= i < |events| ==>
         AddsNoMoreThanOwed(cfg, Run(cfg, EMPTY, events[..i]), events[i], organization)
    {
      forall n: nat | n <= |events|
        ensures Balance(Run(cfg, EMPTY, events[..n]).ledger, organization) <= 0
      {
        OwedUpTo(cfg, events, organization, n);
      }
    }
  }

  // ── Runs in which recoveries are paid in turn ──────────────────────────────

  /** Every call of the run that is possible when it comes is made in turn. */
  ghost predicate AllInTurn(cfg: Config, events: seq<Event>, organization: Organization, sizings: map<Id, Sizing>) {
    forall i :: 0 <= i < |events| ==>
      (Enabled(Run(cfg, EMPTY, events[..i]), events[i]) ==>
         InTurn(Run(cfg, EMPTY, events[..i]), events[i], organization, sizings))
  }

  lemma AllButLastInTurn(cfg: Config, events: seq<Event>, organization: Organization, sizings: map<Id, Sizing>)
    requires AllInTurn(cfg, events, organization, sizings) && events != []
    ensures var rest, last := events[..|events| - 1], events[|events| - 1];
            && AllInTurn(cfg, rest, organization, sizings)
            && (Enabled(Run(cfg, EMPTY, rest), last) ==> InTurn(Run(cfg, EMPTY, rest), last, organization, sizings))
  {
    var rest := events[..|events| - 1];
    forall i | 0 <= i < |rest| && Enabled(Run(cfg, EMPTY, rest[..i]), rest[i])
      ensures InTurn(Run(cfg, EMPTY, rest[..i]), rest[i], organization, sizings)
    {
      assert events[..i] == rest[..i];
    }
  }

  /**
   Over every run of credits, sweeps, attachments, reversals, expiries and entries by people in
   which calls are made in turn, an organisation that owes never comes to be owed.
   */
  lemma {:induction false} NeverOwedAfterARun(cfg: Config, events: seq<Event>, organization: Organization,
        sizings: map<Id, Sizing>)
    requires cfg.ledgerWired && AllInTurn(cfg, events, organization, sizings)
    ensures OwedAndSized(cfg, Run(cfg, EMPTY, events), organization, sizings)
  {
    if events == [] {
      EmptyTables(cfg);
    } else {
      var rest := events[..|events| - 1];
      AllButLastInTurn(cfg, events, organization, sizings);
      NeverOwedAfterARun(cfg, rest, organization, sizings);
      StepStaysOwed(cfg, Run(cfg, EMPTY, rest), events[|events| - 1], organization, sizings);
    }
  }
}
