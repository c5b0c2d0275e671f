/**
 Runs of the crediting tables: any sequence of the service calls, from empty tables. What every
 run keeps: each transfer is counted once, totals and statuses agree with the surviving
 payments, a parked transfer marked attached is a payment of the invoice named, and the ledger
 nets against the payments that are live.
 */
module CreditingRuns {
  import opened Options
  import opened PooledMatching
  import opened CreditingState

  /** One service call, with what it found outside the tables. */
  datatype Event =
    | Issue(id: Id, terms: Terms)
    | Present(t: Transfer, quote: Quote, now: Time, target: Target)
    | Sweep(key: TransferKey, quote: Quote, now: Time, target: Target)
    | Reversal(key: TransferKey)
    | Attachment(key: TransferKey, id: Id, now: Time)
    | Resolve(key: TransferKey, resolution: Resolution)
    | Expiry(now: Time, closed: set<Id>)
    | Statement(organization: Organization, kind: EntryKind, amount: int)

  ghost predicate Enabled(w: World, ev: Event) {
    match ev
    case Issue(id, terms) => id !in w.invoices && Issuable(w, terms)
    case Present(t, quote, now, target) => Matches(w, t, now, now, target)
    case Sweep(key, quote, now, target) =>
      && key in w.parked && Sweepable(w.parked[key]) && quote.needed <= MAX_SAFE_INTEGER
      && Matches(w, Unparked(key, w.parked[key]), w.parked[key].seenAt, now, target)
    case Reversal(key) => true
    case Attachment(key, id, now) => AttachRefusal(w, key, id).None?
    case Resolve(key, resolution) =>
      key in w.parked && w.parked[key].resolution == Resolution.Pending && resolution in {Returned, Ignored}
    case Expiry(now, closed) => forall id :: id in closed ==> id in w.invoices && Due(w.invoices[id], now)
    case Statement(organization, kind, amount) => kind in {Settlement, Adjustment} && amount != 0
  }

  /** The unique keys on invoices; and invoices at one address share a model. */
  ghost predicate Issuable(w: World, terms: Terms) {
    forall id :: id in w.invoices ==>
      var other := w.invoices[id].terms;
      && (other.chain == terms.chain && other.depositAddress == terms.depositAddress ==>
            other.model == terms.model && terms.model != Unique)
      && (terms.memo.Some? && other.chain == terms.chain ==> other.memo != terms.memo)
  }

  lemma MatchesAnInvoice(w: World, t: Transfer, seenAt: Time, now: Time, target: Target)
    requires Matches(w, t, seenAt, now, target) && target.ToInvoice?
    ensures target.invoiceId in w.invoices
    ensures w.invoices[target.invoiceId].terms.chain == t.key.chain || target.rule == Replay || target.rule.ByRule?
  {}

  ghost function Next(cfg: Config, w: World, ev: Event): World
    requires Enabled(w, ev)
  {
    match ev
    case Issue(id, terms) => SetInvoice(w, id, Invoice(terms, 0, Status.Pending, false, true))
    case Present(t, quote, now, target) => Process(cfg, w, t, quote, false, now, target).world
    case Sweep(key, quote, now, target) =>
      Process(cfg, w, Unparked(key, w.parked[key]), quote, true, now, target).world
    case Reversal(key) => Reverse(cfg, w, key)
    case Attachment(key, id, now) => Attach(w, key, id, now)
    case Resolve(key, resolution) => w.(parked := w.parked[key := w.parked[key].(resolution := resolution)])
    case Expiry(now, closed) => Expire(w, closed)
    case Statement(organization, kind, amount) => w.(ledger := w.ledger + [Entry(organization, kind, amount, None)])
  }

  /** A call that is refused changes nothing. */
  ghost function Apply(cfg: Config, w: World, ev: Event): World {
    if Enabled(w, ev) then Next(cfg, w, ev) else w
  }

  ghost function Run(cfg: Config, w: World, events: seq<Event>): World {
    if events == [] then w else Apply(cfg, Run(cfg, w, events[..|events| - 1]), events[|events| - 1])
  }

  const EMPTY := World(map[], [], map[], [])

  // ── Sums over payments ─────────────────────────────────────────────────────

  lemma AmountPaidAppend(payments: seq<PaymentRow>, p: PaymentRow, id: Id)
    ensures AmountPaid(payments + [p], id)
         == AmountPaid(payments, id) + if p.invoiceId == id && !p.reversed then Counted(p) else 0
  {
    assert (payments + [p])[..|payments|] == payments;
  }

  lemma {:induction false} AmountPaidReversed(payments: seq<PaymentRow>, i: nat, id: Id)
    requires i < |payments|
    ensures payments[i].invoiceId != id ==>
      AmountPaid(payments[i := payments[i].(reversed := true)], id) == AmountPaid(payments, id)
  {
    var n := |payments| - 1;
    var reversed := payments[i := payments[i].(reversed := true)];
    if i < n {
      AmountPaidReversed(payments[..n], i, id);
      assert reversed[..n] == payments[..n][i := payments[i].(reversed := true)];
    } else {
      assert reversed[..n] == payments[..n];
    }
  }

  function Commission(invoices: map<Id, Invoice>, p: PaymentRow): int {
    if p.invoiceId in invoices then Share(p.valueUsdMicros, invoices[p.invoiceId].terms.accruedFeeBps) else 0
  }

  function Recovered(invoices: map<Id, Invoice>, p: PaymentRow): int {
    if p.invoiceId in invoices then Share(p.valueUsdMicros, invoices[p.invoiceId].terms.recoveryBps) else 0
  }

  predicate Belongs(invoices: map<Id, Invoice>, p: PaymentRow, organization: Organization) {
    p.invoiceId in invoices && invoices[p.invoiceId].terms.organization == organization
  }

  /** What a payment leaves on its organisation's balance: a recovery stays, an accrual goes with the payment. */
  function NetOf(invoices: map<Id, Invoice>, p: PaymentRow, organization: Organization): int {
    if Belongs(invoices, p, organization)
    then Recovered(invoices, p) - (if p.reversed then 0 else Commission(invoices, p)) else 0
  }

  function Net(invoices: map<Id, Invoice>, payments: seq<PaymentRow>, organization: Organization): int {
    if payments == [] then 0
    else
      var n := |payments| - 1;
      Net(invoices, payments[..n], organization) + NetOf(invoices, payments[n], organization)
  }

  /** The balance: the sum of an organisation's entries. */
  function Balance(ledger: seq<Entry>, organization: Organization): int {
    if ledger == [] then 0
    else
      var n := |ledger| - 1;
      Balance(ledger[..n], organization) + if ledger[n].organization == organization then ledger[n].amount else 0
  }

  /** The entries people made: settlements and adjustments. */
  function Human(ledger: seq<Entry>, organization: Organization): int {
    if ledger == [] then 0
    else
      var n := |ledger| - 1;
      Human(ledger[..n], organization)
      + if ledger[n].organization == organization && ledger[n].payment.None? then ledger[n].amount else 0
  }

  lemma NetAppend(invoices: map<Id, Invoice>, payments: seq<PaymentRow>, p: PaymentRow, organization: Organization)
    ensures Net(invoices, payments + [p], organization)
         == Net(invoices, payments, organization) + NetOf(invoices, p, organization)
  {
    assert (payments + [p])[..|payments|] == payments;
  }

  lemma {:induction false} NetUpdate(invoices: map<Id, Invoice>, payments: seq<PaymentRow>, i: nat, p: PaymentRow,
      organization: Organization)
    requires i < |payments|
    ensures Net(invoices, payments[i := p], organization)
         == Net(invoices, payments, organization) - NetOf(invoices, payments[i], organization)
           + NetOf(invoices, p, organization)
  {
    var n := |payments| - 1;
    if i < n {
      NetUpdate(invoices, payments[..n], i, p, organization);
      assert payments[i := p][..n] == payments[..n][i := p];
    } else {
      assert payments[i := p][..n] == payments[..n];
    }
  }

  lemma EntryAppend(ledger: seq<Entry>, e: Entry, organization: Organization)
    ensures Balance(ledger + [e], organization)
         == Balance(ledger, organization) + if e.organization == organization then e.amount else 0
    ensures Human(ledger + [e], organization)
         == Human(ledger, organization) + if e.organization == organization && e.payment.None? then e.amount else 0
  {
    assert (ledger + [e])[..|ledger|] == ledger;
  }

  /** Invoices are never dropped, and their terms never change. */
  ghost predicate KeepsTerms(before: map<Id, Invoice>, after: map<Id, Invoice>) {
    forall id :: id in before ==> id in after && after[id].terms == before[id].terms
  }

  lemma {:induction false} NetOfKeptTerms(before: map<Id, Invoice>, after: map<Id, Invoice>,
      payments: seq<PaymentRow>, organization: Organization)
    requires KeepsTerms(before, after) && Homed(before, payments)
    ensures Net(after, payments, organization) == Net(before, payments, organization)
  {
    if payments != [] { NetOfKeptTerms(before, after, payments[..|payments| - 1], organization); }
  }

  // ── What every run keeps ───────────────────────────────────────────────────

  /** No transfer has two payment rows. */
  ghost predicate DistinctKeys(payments: seq<PaymentRow>) {
    forall i, j :: 0 <= i < j < |payments| ==> payments[i].key != payments[j].key
  }

  /** Every payment is of an invoice on its own chain. */
  ghost predicate Homed(invoices: map<Id, Invoice>, payments: seq<PaymentRow>) {
    forall i :: 0 <= i < |payments| ==>
      payments[i].invoiceId in invoices && invoices[payments[i].invoiceId].terms.chain == payments[i].key.chain
  }

  /** The total is what the surviving payments sum to, and the status is the one that total earns. */
  ghost predicate Agrees(payments: seq<PaymentRow>, id: Id, invoice: Invoice) {
    && invoice.amountPaid == AmountPaid(payments, id)
    && (invoice.amountPaid == 0 <==> invoice.status in {Status.Pending, Confirming, Expired})
    && (invoice.amountPaid != 0 ==>
          invoice.status
            == Classify(invoice.amountPaid, invoice.terms.amountDue, invoice.terms.toleranceBps, invoice.status))
  }

  ghost predicate TotalsAgree(w: World) {
    forall id :: id in w.invoices ==> Agrees(w.payments, id, w.invoices[id])
  }

  ghost predicate Core(w: World) {
    DistinctKeys(w.payments) && Homed(w.invoices, w.payments) && TotalsAgree(w)
  }

  /** Entries for payments are for payments there are, and only with a ledger wired. */
  ghost predicate LedgerKeyed(cfg: Config, w: World) {
    forall e :: e in w.ledger && e.payment.Some? ==> cfg.ledgerWired && HasPayment(w.payments, e.payment.value)
  }

  /** A payment's accrual is its commission, and there is one exactly when that is not zero. */
  ghost predicate AccrualOf(w: World, p: PaymentRow) {
    Accrued(w.ledger, p.key) == if Commission(w.invoices, p) > 0 then Some(-Commission(w.invoices, p)) else None
  }

  ghost predicate RowMatches(w: World, p: PaymentRow) {
    AccrualOf(w, p) && (HasEntry(w.ledger, p.key, AccrualReversed) ==> p.reversed)
  }

  ghost predicate LedgerMatches(w: World) {
    forall i :: 0 <= i < |w.payments| ==> RowMatches(w, w.payments[i])
  }

  /** The balance is what people entered, plus what the payments leave on it. */
  ghost predicate Conserved(cfg: Config, w: World) {
    forall organization: Organization :: Balance(w.ledger, organization)
      == Human(w.ledger, organization) + if cfg.ledgerWired then Net(w.invoices, w.payments, organization) else 0
  }

  ghost predicate Books(cfg: Config, w: World) {
    LedgerKeyed(cfg, w) && (cfg.ledgerWired ==> LedgerMatches(w)) && Conserved(cfg, w)
  }

  // ── Each change to the core tables ─────────────────────────────────────────

  lemma HasPaymentIff(payments: seq<PaymentRow>, key: TransferKey)
    ensures HasPayment(payments, key) <==> exists i :: 0 <= i < |payments| && payments[i].key == key
  {}

  /** Recomputing one invoice mends it, when all the others agree. */
  lemma RecomputeAgrees(w: World, id: Id)
    requires forall other :: other in w.invoices && other != id ==> Agrees(w.payments, other, w.invoices[other])
    ensures TotalsAgree(Recompute(w, id))
    ensures KeepsTerms(w.invoices, Recompute(w, id).invoices)
  {}

  lemma InsertKeepsCore(cfg: Config, w: World, p: PaymentRow)
    requires Core(w) && p.invoiceId in w.invoices && w.invoices[p.invoiceId].terms.chain == p.key.chain
    requires !HasPayment(w.payments, p.key)
    ensures Core(Insert(cfg, w, p)) && KeepsTerms(w.invoices, Insert(cfg, w, p).invoices)
    ensures Insert(cfg, w, p).payments == w.payments + [p]
  {
    var ledger := Insert(cfg, w, p).ledger;
    var mid := w.(payments := w.payments + [p], ledger := ledger);
    forall other | other in w.invoices && other != p.invoiceId
      ensures Agrees(mid.payments, other, mid.invoices[other]) {
      AmountPaidAppend(w.payments, p, other);
    }
    RecomputeAgrees(mid, p.invoiceId);
  }

  lemma ReverseKeepsCore(cfg: Config, w: World, key: TransferKey)
    requires Core(w)
    ensures Core(Reverse(cfg, w, key)) && KeepsTerms(w.invoices, Reverse(cfg, w, key).invoices)
  {
    var i := PlaceOf(w.payments, key);
    if i < |w.payments| && !w.payments[i].reversed {
      var id := w.payments[i].invoiceId;
      var mid := w.(payments := w.payments[i := w.payments[i].(reversed := true)]);
      forall other | other in w.invoices && other != id ensures Agrees(mid.payments, other, mid.invoices[other]) {
        AmountPaidReversed(w.payments, i, other);
      }
      RecomputeAgrees(mid, id);
      SameRows(w.invoices, w.payments, mid.payments);
      assert Core(Recompute(mid, id));
    }
  }

  lemma SameRows(invoices: map<Id, Invoice>, payments: seq<PaymentRow>, after: seq<PaymentRow>)
    requires DistinctKeys(payments) && Homed(invoices, payments) && |after| == |payments|
    requires forall i :: 0 <= i < |payments| ==>
           after[i].key == payments[i].key && after[i].invoiceId == payments[i].invoiceId
    ensures DistinctKeys(after) && Homed(invoices, after)
  {}

  lemma ExpireKeepsCore(w: World, now: Time, closed: set<Id>)
    requires Core(w) && Enabled(w, Expiry(now, closed))
    ensures Core(Expire(w, closed)) && KeepsTerms(w.invoices, Expire(w, closed).invoices)
  {}

  lemma ConfirmingKeepsCore(w: World, id: Id)
    requires Core(w) && id in w.invoices && w.invoices[id].status == Status.Pending
    ensures var w' := SetInvoice(w, id, w.invoices[id].(status := Confirming));
            Core(w') && KeepsTerms(w.invoices, w'.invoices)
  {}

  lemma {:induction false} NothingPaid(payments: seq<PaymentRow>, id: Id)
    requires forall i :: 0 <= i < |payments| ==> payments[i].invoiceId != id
    ensures AmountPaid(payments, id) == 0
  {
    if payments != [] { NothingPaid(payments[..|payments| - 1], id); }
  }

  lemma IssueKeepsCore(w: World, id: Id, terms: Terms)
    requires Core(w) && id !in w.invoices
    ensures var w' := SetInvoice(w, id, Invoice(terms, 0, Status.Pending, false, true));
            Core(w') && KeepsTerms(w.invoices, w'.invoices)
  {
    NothingPaid(w.payments, id);
  }

  // ── Each change to the ledger ──────────────────────────────────────────────

  lemma {:induction false} AccruedHasEntry(ledger: seq<Entry>, key: TransferKey)
    ensures Accrued(ledger, key).Some? <==> HasEntry(ledger, key, Accrual)
  {
    if ledger != [] {
      AccruedHasEntry(ledger[1..], key);
      assert ledger == [ledger[0]] + ledger[1..];
    }
  }

  lemma {:induction false} AccruedAppend(ledger: seq<Entry>, e: Entry, key: TransferKey)
    ensures Accrued(ledger + [e], key)
         == if Accrued(ledger, key).Some? then Accrued(ledger, key)
            else if e.payment == Some(key) && e.kind == Accrual then Some(e.amount) else None
  {
    if ledger == [] {
      assert (ledger + [e])[1..] == [];
    } else {
      AccruedAppend(ledger[1..], e, key);
      assert (ledger + [e])[1..] == ledger[1..] + [e];
    }
  }

  lemma HasEntryAppend(ledger: seq<Entry>, e: Entry, key: TransferKey, kind: EntryKind)
    ensures HasEntry(ledger + [e], key, kind)
       <==> HasEntry(ledger, key, kind) || (e.payment == Some(key) && e.kind == kind)
  {
    if HasEntry(ledger, key, kind) {
      var f :| f in ledger && f.payment == Some(key) && f.kind == kind;
      assert f in ledger + [e];
    }
    assert e in ledger + [e];
  }

  /** An entry that is new to the ledger, as each reader of the ledger sees it. */
  lemma EnterNew(ledger: seq<Entry>, e: Entry, organization: Organization, key: TransferKey)
    requires e.payment.Some? && !HasEntry(ledger, e.payment.value, e.kind)
    ensures Enter(ledger, e.organization, e.kind, e.amount, e.payment.value) == ledger + [e]
    ensures Balance(ledger + [e], organization)
         == Balance(ledger, organization) + if e.organization == organization then e.amount else 0
    ensures Human(ledger + [e], organization) == Human(ledger, organization)
    ensures Accrued(ledger + [e], key)
         == if e.kind == Accrual && e.payment.value == key then Some(e.amount) else Accrued(ledger, key)
  {
    EntryAppend(ledger, e, organization);
    AccruedAppend(ledger, e, key);
    AccruedHasEntry(ledger, key);
  }

  lemma AccrueNew(ledger: seq<Entry>, terms: Terms, p: PaymentRow, organization: Organization, key: TransferKey)
    requires !HasEntry(ledger, p.key, Accrual)
    ensures var after, commission := Accrue(ledger, terms, p), Share(p.valueUsdMicros, terms.accruedFeeBps);
            && Balance(after, organization)
                 == Balance(ledger, organization) - (if terms.organization == organization then commission else 0)
            && Human(after, organization) == Human(ledger, organization)
            && Accrued(after, key)
              == (if key == p.key && commission > 0 then Some(-commission) else Accrued(ledger, key))
            && (HasEntry(after, key, AccrualReversed) <==> HasEntry(ledger, key, AccrualReversed))
            && (HasEntry(after, p.key, Recovery) <==> HasEntry(ledger, p.key, Recovery))
  {
    var e := Entry(terms.organization, Accrual, -Share(p.valueUsdMicros, terms.accruedFeeBps), Some(p.key));
    if e.amount < 0 {
      EnterNew(ledger, e, organization, key);
      HasEntryAppend(ledger, e, key, AccrualReversed);
      HasEntryAppend(ledger, e, p.key, Recovery);
    }
  }

  lemma RecoverNew(ledger: seq<Entry>, terms: Terms, p: PaymentRow, organization: Organization, key: TransferKey)
    requires !HasEntry(ledger, p.key, Recovery)
    ensures var after, recovered := Recover(ledger, terms, p), Share(p.valueUsdMicros, terms.recoveryBps);
            && Balance(after, organization)
                 == Balance(ledger, organization) + (if terms.organization == organization then recovered else 0)
            && Human(after, organization) == Human(ledger, organization)
            && Accrued(after, key) == Accrued(ledger, key)
            && (HasEntry(after, key, AccrualReversed) <==> HasEntry(ledger, key, AccrualReversed))
  {
    var e := Entry(terms.organization, Recovery, Share(p.valueUsdMicros, terms.recoveryBps), Some(p.key));
    if e.amount > 0 {
      EnterNew(ledger, e, organization, key);
      HasEntryAppend(ledger, e, key, AccrualReversed);
    }
  }

  /** The entries of a payment inserted for the first time. */
  lemma NewEntries(ledger: seq<Entry>, terms: Terms, p: PaymentRow, organization: Organization, key: TransferKey)
    requires !HasEntry(ledger, p.key, Accrual) && !HasEntry(ledger, p.key, Recovery)
    ensures var after := Recover(Accrue(ledger, terms, p), terms, p);
            var commission, recovered :=
              Share(p.valueUsdMicros, terms.accruedFeeBps), Share(p.valueUsdMicros, terms.recoveryBps);
            && Balance(after, organization)
                 == Balance(ledger, organization)
                   + (if terms.organization == organization then recovered - commission else 0)
            && Human(after, organization) == Human(ledger, organization)
            && Accrued(after, key)
              == (if key == p.key && commission > 0 then Some(-commission) else Accrued(ledger, key))
            && (HasEntry(after, key, AccrualReversed) <==> HasEntry(ledger, key, AccrualReversed))
  {
    AccrueNew(ledger, terms, p, organization, key);
    RecoverNew(Accrue(ledger, terms, p), terms, p, organization, key);
  }

  lemma NewEntriesKeyed(ledger: seq<Entry>, terms: Terms, p: PaymentRow, e: Entry)
    requires e in Recover(Accrue(ledger, terms, p), terms, p)
    ensures e in ledger || e.payment == Some(p.key)
  {}

  /** Neither the ledger nor the payments changed, and invoices keep their terms. */
  lemma FrameKeepsBooks(cfg: Config, w: World, w': World)
    requires Books(cfg, w) && Homed(w.invoices, w.payments)
    requires w'.ledger == w.ledger && w'.payments == w.payments && KeepsTerms(w.invoices, w'.invoices)
    ensures Books(cfg, w')
  {
    forall organization: Organization
      ensures Net(w'.invoices, w'.payments, organization) == Net(w.invoices, w.payments, organization)
    {
      NetOfKeptTerms(w.invoices, w'.invoices, w.payments, organization);
    }
    forall i | 0 <= i < |w.payments| && cfg.ledgerWired ensures RowMatches(w', w.payments[i]) {
      assert RowMatches(w, w.payments[i]);
    }
  }

  lemma StatementKeepsBooks(cfg: Config, w: World, e: Entry)
    requires Books(cfg, w) && e.payment.None? && e.kind in {Settlement, Adjustment}
    ensures Books(cfg, w.(ledger := w.ledger + [e]))
  {
    var w' := w.(ledger := w.ledger + [e]);
    forall organization: Organization ensures Balance(w'.ledger, organization)
      == Human(w'.ledger, organization) + if cfg.ledgerWired then Net(w.invoices, w.payments, organization) else 0
    {
      EntryAppend(w.ledger, e, organization);
    }
    forall i | 0 <= i < |w.payments| && cfg.ledgerWired ensures RowMatches(w', w.payments[i]) {
      AccruedAppend(w.ledger, e, w.payments[i].key);
      HasEntryAppend(w.ledger, e, w.payments[i].key, AccrualReversed);
      assert RowMatches(w, w.payments[i]);
    }
  }

  lemma NoEntriesWithoutPayment(cfg: Config, w: World, key: TransferKey, kind: EntryKind)
    requires LedgerKeyed(cfg, w) && !HasPayment(w.payments, key)
    ensures !HasEntry(w.ledger, key, kind)
  {}

  lemma AppendHasPayment(payments: seq<PaymentRow>, p: PaymentRow, key: TransferKey)
    ensures HasPayment(payments + [p], key) <==> HasPayment(payments, key) || key == p.key
  {
    HasPaymentIff(payments, key);
    HasPaymentIff(payments + [p], key);
    if HasPayment(payments, key) {
      var i :| 0 <= i < |payments| && payments[i].key == key;
      assert (payments + [p])[i].key == key;
    }
    assert (payments + [p])[|payments|] == p;
  }

  /** The ledger after a payment is inserted. */
  function PostedLedger(cfg: Config, w: World, p: PaymentRow): seq<Entry>
    requires p.invoiceId in w.invoices
  {
    var terms := w.invoices[p.invoiceId].terms;
    if cfg.ledgerWired then Recover(Accrue(w.ledger, terms, p), terms, p) else w.ledger
  }

  lemma InsertKeepsKeyed(cfg: Config, w: World, p: PaymentRow)
    requires LedgerKeyed(cfg, w) && p.invoiceId in w.invoices
    ensures LedgerKeyed(cfg, w.(payments := w.payments + [p], ledger := PostedLedger(cfg, w, p)))
  {
    var w' := w.(payments := w.payments + [p], ledger := PostedLedger(cfg, w, p));
    forall e | e in w'.ledger && e.payment.Some? ensures cfg.ledgerWired && HasPayment(w'.payments, e.payment.value) {
      if cfg.ledgerWired { NewEntriesKeyed(w.ledger, w.invoices[p.invoiceId].terms, p, e); }
      AppendHasPayment(w.payments, p, e.payment.value);
    }
  }

  /** A row matches again in a ledger that says the same of its accrual. */
  lemma RowStillMatches(w: World, w': World, row: PaymentRow, row': PaymentRow)
    requires RowMatches(w, row) && w'.invoices == w.invoices
    requires row' == row || row' == row.(reversed := true)
    requires Accrued(w'.ledger, row.key) == Accrued(w.ledger, row.key)
    requires HasEntry(w'.ledger, row.key, AccrualReversed) ==>
           HasEntry(w.ledger, row.key, AccrualReversed) || row'.reversed
    ensures RowMatches(w', row')
  {}

  lemma InsertKeepsRow(cfg: Config, w: World, p: PaymentRow, w': World, row: PaymentRow)
    requires cfg.ledgerWired && LedgerKeyed(cfg, w)
    requires p.invoiceId in w.invoices && !HasPayment(w.payments, p.key)
    requires w' == w.(payments := w.payments + [p], ledger := PostedLedger(cfg, w, p))
    requires row == p || (RowMatches(w, row) && row.key != p.key)
    ensures RowMatches(w', row)
  {
    NoEntriesWithoutPayment(cfg, w, p.key, Accrual);
    NoEntriesWithoutPayment(cfg, w, p.key, Recovery);
    NewEntries(w.ledger, w.invoices[p.invoiceId].terms, p, w.invoices[p.invoiceId].terms.organization, row.key);
    if row == p {
      NoEntriesWithoutPayment(cfg, w, p.key, AccrualReversed);
      AccruedHasEntry(w.ledger, p.key);
    } else {
      RowStillMatches(w, w', row, row);
    }
  }

  lemma InsertKeepsMatches(cfg: Config, w: World, p: PaymentRow)
    requires cfg.ledgerWired && LedgerKeyed(cfg, w) && LedgerMatches(w)
    requires p.invoiceId in w.invoices && !HasPayment(w.payments, p.key)
    ensures LedgerMatches(w.(payments := w.payments + [p], ledger := PostedLedger(cfg, w, p)))
  {
    var w' := w.(payments := w.payments + [p], ledger := PostedLedger(cfg, w, p));
    forall i | 0 <= i < |w'.payments| ensures RowMatches(w', w'.payments[i]) {
      InsertKeepsRow(cfg, w, p, w', w'.payments[i]);
    }
  }

  lemma InsertConserves(cfg: Config, w: World, p: PaymentRow)
    requires LedgerKeyed(cfg, w) && Conserved(cfg, w)
    requires p.invoiceId in w.invoices && !HasPayment(w.payments, p.key) && !p.reversed
    ensures Conserved(cfg, w.(payments := w.payments + [p], ledger := PostedLedger(cfg, w, p)))
  {
    var w' := w.(payments := w.payments + [p], ledger := PostedLedger(cfg, w, p));
    NoEntriesWithoutPayment(cfg, w, p.key, Accrual);
    NoEntriesWithoutPayment(cfg, w, p.key, Recovery);
    forall organization: Organization ensures Balance(w'.ledger, organization)
      == Human(w'.ledger, organization) + if cfg.ledgerWired then Net(w'.invoices, w'.payments, organization) else 0
    {
      NewEntries(w.ledger, w.invoices[p.invoiceId].terms, p, organization, p.key);
      NetAppend(w.invoices, w.payments, p, organization);
    }
  }

  lemma InsertKeepsBooks(cfg: Config, w: World, p: PaymentRow)
    requires Books(cfg, w) && Homed(w.invoices, w.payments + [p])
    requires !HasPayment(w.payments, p.key) && !p.reversed && p.invoiceId in w.invoices
    ensures Books(cfg, Insert(cfg, w, p))
  {
    var mid := w.(payments := w.payments + [p], ledger := PostedLedger(cfg, w, p));
    InsertKeepsKeyed(cfg, w, p);
    if cfg.ledgerWired { InsertKeepsMatches(cfg, w, p); }
    InsertConserves(cfg, w, p);
    FrameKeepsBooks(cfg, mid, Recompute(mid, p.invoiceId));
  }

  // ── Reversals ──────────────────────────────────────────────────────────────

  /** The tables after the payment at place i is marked reversed, with its accrual undone. */
  function ReversedAt(cfg: Config, w: World, i: nat): World
    requires i < |w.payments| && w.payments[i].invoiceId in w.invoices
  {
    var p := w.payments[i];
    w.(payments := w.payments[i := p.(reversed := true)],
       ledger := if cfg.ledgerWired then ReverseAccrual(w.ledger, w.invoices[p.invoiceId].terms.organization, p.key)
         else w.ledger)
  }

  /** A reversal takes the commission back, once, and nothing else. */
  lemma ReverseEntry(cfg: Config, w: World, i: nat, organization: Organization, key: TransferKey)
    requires cfg.ledgerWired && LedgerMatches(w)
    requires i < |w.payments| && w.payments[i].invoiceId in w.invoices && !w.payments[i].reversed
    ensures var after, p := ReversedAt(cfg, w, i).ledger, w.payments[i];
            && Balance(after, organization) == Balance(w.ledger, organization)
                 + (if Belongs(w.invoices, p, organization) then Commission(w.invoices, p) else 0)
            && Human(after, organization) == Human(w.ledger, organization)
            && Accrued(after, key) == Accrued(w.ledger, key)
            && (HasEntry(after, key, AccrualReversed) ==> HasEntry(w.ledger, key, AccrualReversed) || key == p.key)
            && forall e :: e in after ==> e in w.ledger || e.payment == Some(p.key)
  {
    var p := w.payments[i];
    assert RowMatches(w, p);
    if Accrued(w.ledger, p.key).Some? {
      var e :=
        Entry(w.invoices[p.invoiceId].terms.organization, AccrualReversed, Commission(w.invoices, p), Some(p.key));
      EnterNew(w.ledger, e, organization, key);
      HasEntryAppend(w.ledger, e, key, AccrualReversed);
    }
  }

  lemma ReversedHasPayment(payments: seq<PaymentRow>, i: nat, key: TransferKey)
    requires i < |payments|
    ensures HasPayment(payments[i := payments[i].(reversed := true)], key) <==> HasPayment(payments, key)
  {
    var after := payments[i := payments[i].(reversed := true)];
    HasPaymentIff(payments, key);
    HasPaymentIff(after, key);
    assert forall j :: 0 <= j < |payments| ==> after[j].key == payments[j].key;
  }

  lemma ReverseKeepsMatches(cfg: Config, w: World, i: nat)
    requires cfg.ledgerWired && LedgerMatches(w) && DistinctKeys(w.payments)
    requires i < |w.payments| && w.payments[i].invoiceId in w.invoices && !w.payments[i].reversed
    ensures LedgerMatches(ReversedAt(cfg, w, i))
  {
    var w' := ReversedAt(cfg, w, i);
    forall j | 0 <= j < |w.payments| ensures RowMatches(w', w'.payments[j]) {
      ReverseEntry(cfg, w, i, w.invoices[w.payments[i].invoiceId].terms.organization, w.payments[j].key);
      RowStillMatches(w, w', w.payments[j], w'.payments[j]);
    }
  }

  lemma ReverseConserves(cfg: Config, w: World, i: nat)
    requires Books(cfg, w)
    requires i < |w.payments| && w.payments[i].invoiceId in w.invoices && !w.payments[i].reversed
    ensures Conserved(cfg, ReversedAt(cfg, w, i)) && LedgerKeyed(cfg, ReversedAt(cfg, w, i))
  {
    var w', p := ReversedAt(cfg, w, i), w.payments[i];
    forall organization: Organization ensures Balance(w'.ledger, organization)
      == Human(w'.ledger, organization) + if cfg.ledgerWired then Net(w'.invoices, w'.payments, organization) else 0
    {
      if cfg.ledgerWired { ReverseEntry(cfg, w, i, organization, p.key); }
      NetUpdate(w.invoices, w.payments, i, p.(reversed := true), organization);
    }
    forall e | e in w'.ledger && e.payment.Some? ensures cfg.ledgerWired && HasPayment(w'.payments, e.payment.value) {
      if cfg.ledgerWired { ReverseEntry(cfg, w, i, e.organization, p.key); }
      ReversedHasPayment(w.payments, i, e.payment.value);
      HasPaymentIff(w.payments, p.key);
    }
  }

  lemma ReverseKeepsBooks(cfg: Config, w: World, key: TransferKey)
    requires Books(cfg, w) && Core(w)
    ensures Books(cfg, Reverse(cfg, w, key))
  {
    var i := PlaceOf(w.payments, key);
    if i < |w.payments| && !w.payments[i].reversed {
      var mid := ReversedAt(cfg, w, i);
      if cfg.ledgerWired { ReverseKeepsMatches(cfg, w, i); }
      ReverseConserves(cfg, w, i);
      FrameKeepsBooks(cfg, mid, Recompute(mid, w.payments[i].invoiceId));
      assert Reverse(cfg, w, key) == Recompute(mid, w.payments[i].invoiceId);
    }
  }
}
