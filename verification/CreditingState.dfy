/**
 The tables that crediting reads and writes, and each service call as one atomic step on them:
 apps/api/src/domain/payment-sink.ts, commission-ledger.ts, reconciliation-service.ts and
 invoice-expiry.ts, with the unique keys of apps/api/src/db/schema.ts.
 */
module CreditingState {
  import opened DecimalPowers
  import opened Options
  import opened PooledMatching

  type Chain = string
  type Organization = string

  /** Where a transfer happened: the unique key of payments and of parked transfers. */
  datatype TransferKey = TransferKey(chain: Chain, txHash: string, index: int)

  datatype Asset = Asset(key: string, decimals: Decimals)

  datatype AddressModel = Unique | Pooled | SharedMemo

  /** What an invoice is issued with and keeps. */
  datatype Terms = Terms(
    organization: Organization, asset: Asset, chain: Chain, depositAddress: string, memo: Option<string>,
    model: AddressModel, amountDue: nat, toleranceBps: nat, accruedFeeBps: nat, recoveryBps: nat,
    createdAt: Time, expiresAt: Time)

  datatype Invoice = Invoice(terms: Terms, amountPaid: nat, status: Status, paidOnce: bool, referenceActive: bool)

  datatype PaymentRow = PaymentRow(
    key: TransferKey, invoiceId: Id, amount: nat, creditedAmount: Option<nat>, from: Option<string>,
    valueUsdMicros: Option<nat>, creditedAt: Time, reversed: bool)

  datatype Resolution = Pending | Attached(invoiceId: Id) | Returned | Ignored

  datatype ParkedRow = ParkedRow(
    amount: nat, asset: Option<Asset>, to: string, from: Option<string>, reason: UnmatchedReason,
    resolution: Resolution, seenAt: Time)

  datatype EntryKind = Accrual | AccrualReversed | Recovery | Settlement | Adjustment

  datatype Entry = Entry(organization: Organization, kind: EntryKind, amount: int, payment: Option<TransferKey>)

  datatype World = World(
    invoices: map<Id, Invoice>, payments: seq<PaymentRow>, parked: map<TransferKey, ParkedRow>, ledger: seq<Entry>)

  /** How the sink was built: with a commission ledger, with a queue, and which assets exist. */
  datatype Config = Config(ledgerWired: bool, queueWired: bool, catalogue: map<string, Asset>)

  /**
   A transfer as the watcher reports it. Addresses, here and of invoices, are the keys they are
   compared by: in lower case on chains whose addresses are hexadecimal.
   */
  datatype Transfer = Transfer(
    key: TransferKey, to: string, from: Option<string>, asset: Asset, amount: nat,
    memo: Option<string>, confirmations: nat)

  /** What the price source and the chain's policy answer about a transfer. */
  datatype Quote = Quote(valueUsdMicros: Option<nat>, unitUsdMicros: Option<nat>, needed: nat)

  datatype CreditRule = ByRule(rule: MatchRule) | ByAddress | ByMemo | Replay

  datatype Target = ToInvoice(invoiceId: Id, rule: CreditRule, sameAsset: bool) | ToPark(reason: UnmatchedReason)

  datatype Outcome = Credited | Duplicate | Deferred | Unmatched | Rejected

  // ── Reading the tables ─────────────────────────────────────────────────────

  /** The place of a transfer's payment row; the number of rows when it has none. */
  function PlaceOf(payments: seq<PaymentRow>, key: TransferKey): (i: nat)
    ensures i <= |payments|
    ensures i < |payments| ==> payments[i].key == key
    ensures i == |payments| ==> forall j :: 0 <= j < |payments| ==> payments[j].key != key
  {
    if payments == [] then 0
    else
      var n := |payments| - 1;
      var i := PlaceOf(payments[..n], key);
      if i < n then i else if payments[n].key == key then n else |payments|
  }

  predicate HasPayment(payments: seq<PaymentRow>, key: TransferKey) {
    PlaceOf(payments, key) < |payments|
  }

  function Counted(p: PaymentRow): nat {
    if p.creditedAmount.Some? then p.creditedAmount.value else p.amount
  }

  function AmountPaid(payments: seq<PaymentRow>, id: Id): nat {
    if payments == [] then 0
    else
      var n := |payments| - 1;
      AmountPaid(payments[..n], id)
      + if payments[n].invoiceId == id && !payments[n].reversed then Counted(payments[n]) else 0
  }

  /** The status a paid total earns, and what a total of zero leaves. */
  function Classify(total: nat, due: nat, toleranceBps: nat, current: Status): Status {
    var tolerance := due * toleranceBps / 10000;
    if total == 0 then (if current == Expired then Expired else Status.Pending)
    else if total < due - tolerance then Underpaid
    else if total > due + tolerance then Overpaid
    else Paid
  }

  predicate AtAddress(invoice: Invoice, chain: Chain, address: string) {
    invoice.terms.chain == chain && invoice.terms.depositAddress == address
  }

  function InvoicesAt(w: World, chain: Chain, address: string): set<Id> {
    set id | id in w.invoices && AtAddress(w.invoices[id], chain, address)
  }

  function InvoicesWithMemo(w: World, chain: Chain, memo: string): set<Id> {
    set id | id in w.invoices && w.invoices[id].terms.chain == chain && w.invoices[id].terms.memo == Some(memo)
  }

  function AsCandidate(id: Id, invoice: Invoice): CandidateInvoice {
    CandidateInvoice(id, invoice.terms.amountDue, invoice.terms.asset.decimals, invoice.terms.asset.key,
                     invoice.status, invoice.terms.expiresAt, invoice.terms.createdAt)
  }

  /** Open, or closed within the late-payment grace. */
  predicate Recent(invoice: Invoice, now: Time) {
    invoice.status in {Status.Pending, Confirming} || invoice.terms.expiresAt > now - LATE_PAYMENT_GRACE_MS
  }

  function CandidatesAt(w: World, chain: Chain, address: string, now: Time): set<CandidateInvoice> {
    set id | id in w.invoices && AtAddress(w.invoices[id], chain, address) && Recent(w.invoices[id], now)
      :: AsCandidate(id, w.invoices[id])
  }

  function PriorsAt(w: World, chain: Chain, address: string, now: Time): set<PriorPayment> {
    set i | 0 <= i < |w.payments| && IsPrior(w, chain, address, now, w.payments[i])
      :: PriorPayment(w.payments[i].invoiceId, w.payments[i].from, w.payments[i].creditedAt)
  }

  predicate IsPrior(w: World, chain: Chain, address: string, now: Time, p: PaymentRow) {
    && p.invoiceId in w.invoices && AtAddress(w.invoices[p.invoiceId], chain, address)
    && Recent(w.invoices[p.invoiceId], now)
    && !p.reversed && p.creditedAt > now - LATE_PAYMENT_GRACE_MS
  }

  // ── Matching a transfer to an invoice ──────────────────────────────────────

  /** The target at a shared wallet: where the transfer already is, or what the rules decide. */
  function PooledTarget(w: World, t: Transfer, seenAt: Time, now: Time): Target {
    var i := PlaceOf(w.payments, t.key);
    if i < |w.payments| && w.payments[i].invoiceId in w.invoices then
      ToInvoice(w.payments[i].invoiceId, Replay, true)
    else
      var seen := ObservedTransfer(t.amount, t.asset.decimals, t.asset.key, t.from, seenAt);
      match Decide(seen, now, CandidatesAt(w, t.key.chain, t.to, now), PriorsAt(w, t.key.chain, t.to, now))
      case Credit(id, rule, same) => if id in w.invoices then ToInvoice(id, ByRule(rule), same) else ToPark(Ambiguous)
      case Park(reason) => ToPark(reason)
  }

  /**
   The targets a transfer can have. A lookup that takes one row of several, without an order,
   may take any of them.
   */
  ghost predicate Matches(w: World, t: Transfer, seenAt: Time, now: Time, target: Target) {
    if t.memo.Some? && t.memo.value != "" && InvoicesWithMemo(w, t.key.chain, t.memo.value) != {} then
      exists id :: id in InvoicesWithMemo(w, t.key.chain, t.memo.value) && target == ToInvoice(id, ByMemo, true)
    else
      var here := InvoicesAt(w, t.key.chain, t.to);
      if here == {} then target == ToPark(NoMatchingAddress)
      else exists any :: any in here && TargetBy(w, t, seenAt, now, any, target)
  }

  /** The target once one invoice at the address has said which model the address follows. */
  ghost predicate TargetBy(w: World, t: Transfer, seenAt: Time, now: Time, any: Id, target: Target)
    requires any in w.invoices
  {
    if w.invoices[any].terms.model == Pooled then target == PooledTarget(w, t, seenAt, now)
    else exists id :: id in InvoicesAt(w, t.key.chain, t.to) && target == ToInvoice(id, ByAddress, true)
  }

  /** What a transfer in another token counts for, in the invoice's own. */
  function Convert(quote: Quote, decimals: Decimals): Option<nat> {
    if quote.valueUsdMicros.None? || quote.unitUsdMicros.None? || quote.unitUsdMicros.value == 0 then None
    else
      var scaled: nat := quote.valueUsdMicros.value * Pow10(decimals);
      Some(scaled / quote.unitUsdMicros.value)
  }

  // ── The ledger ─────────────────────────────────────────────────────────────

  /** A share of a value, rounded down. */
  function Share(valueUsdMicros: Option<nat>, bps: nat): (share: int)
    ensures share >= 0
  {
    if valueUsdMicros.None? then 0 else
      var product: nat := valueUsdMicros.value * bps;
      product / 10000
  }

  predicate HasEntry(ledger: seq<Entry>, key: TransferKey, kind: EntryKind) {
    exists e :: e in ledger && e.payment == Some(key) && e.kind == kind
  }

  /** A new entry for a payment, unless it has one of that kind: the key of the ledger. */
  function Enter(ledger: seq<Entry>, organization: Organization, kind: EntryKind, amount: int,
      key: TransferKey): seq<Entry> {
    if HasEntry(ledger, key, kind) then ledger else ledger + [Entry(organization, kind, amount, Some(key))]
  }

  function Accrue(ledger: seq<Entry>, terms: Terms, p: PaymentRow): seq<Entry> {
    var commission := Share(p.valueUsdMicros, terms.accruedFeeBps);
    if commission == 0 then ledger else Enter(ledger, terms.organization, Accrual, -commission, p.key)
  }

  function Recover(ledger: seq<Entry>, terms: Terms, p: PaymentRow): seq<Entry> {
    var recovered := Share(p.valueUsdMicros, terms.recoveryBps);
    if recovered == 0 then ledger else Enter(ledger, terms.organization, Recovery, recovered, p.key)
  }

  /** The amount a payment was accrued at; none when it has no accrual. */
  function Accrued(ledger: seq<Entry>, key: TransferKey): Option<int> {
    if ledger == [] then None
    else if ledger[0].payment == Some(key) && ledger[0].kind == Accrual then Some(ledger[0].amount)
    else Accrued(ledger[1..], key)
  }

  function ReverseAccrual(ledger: seq<Entry>, organization: Organization, key: TransferKey): seq<Entry> {
    match Accrued(ledger, key)
    case None => ledger
    case Some(amount) => Enter(ledger, organization, AccrualReversed, -amount, key)
  }

  // ── The steps ──────────────────────────────────────────────────────────────

  function SetInvoice(w: World, id: Id, invoice: Invoice): World {
    w.(invoices := w.invoices[id := invoice])
  }

  /** An invoice's total and status from its surviving payments. */
  function Recompute(w: World, id: Id): World {
    if id !in w.invoices then w else
      var invoice := w.invoices[id];
      var total := AmountPaid(w.payments, id);
      var status := Classify(total, invoice.terms.amountDue, invoice.terms.toleranceBps, invoice.status);
      SetInvoice(w, id, invoice.(amountPaid := total, status := status, paidOnce := invoice.paidOnce || status == Paid))
  }

  /** A transfer put in the queue; one already there is left as it is. */
  function ParkTransfer(cfg: Config, w: World, t: Transfer, reason: UnmatchedReason, now: Time): World {
    if t.key in w.parked then w else
      var asset := if t.asset.key in cfg.catalogue then Some(cfg.catalogue[t.asset.key]) else None;
      w.(parked := w.parked[t.key := ParkedRow(t.amount, asset, t.to, t.from, reason, Resolution.Pending, now)])
  }

  function ResolveParked(w: World, key: TransferKey, id: Id): World {
    if key in w.parked && w.parked[key].resolution == Resolution.Pending
    then w.(parked := w.parked[key := w.parked[key].(resolution := Attached(id))]) else w
  }

  function NewPayment(t: Transfer, id: Id, creditedAmount: Option<nat>, quote: Quote, now: Time): PaymentRow {
    PaymentRow(t.key, id, t.amount, creditedAmount, t.from, quote.valueUsdMicros, now, false)
  }

  /** The payment row, its ledger entries, and the invoice's new total and status. */
  function Insert(cfg: Config, w: World, p: PaymentRow): World
    requires p.invoiceId in w.invoices
  {
    var terms := w.invoices[p.invoiceId].terms;
    var ledger := if cfg.ledgerWired then Recover(Accrue(w.ledger, terms, p), terms, p) else w.ledger;
    Recompute(w.(payments := w.payments + [p], ledger := ledger), p.invoiceId)
  }

  datatype Processed = Processed(world: World, outcome: Outcome)

  /** A transfer presented (`parked` false), or a parked one examined again. */
  function Process(cfg: Config, w: World, t: Transfer, quote: Quote, parked: bool, now: Time, target: Target): Processed
    requires target.ToInvoice? ==> target.invoiceId in w.invoices
  {
    match target
    case ToPark(reason) => Unattributed(cfg, w, t, reason, parked, now)
    case ToInvoice(id, _, same) =>
      var invoice := w.invoices[id];
      if t.confirmations < quote.needed then
        var seen := invoice.(status := Confirming);
        Processed(if invoice.status == Status.Pending then SetInvoice(w, id, seen) else w, Deferred)
      else
        var converted := if same then None else Convert(quote, invoice.terms.asset.decimals);
        if !same && converted.None? then Unattributed(cfg, w, t, WrongAsset, parked, now)
        else if HasPayment(w.payments, t.key) then
          Processed(if parked then ResolveParked(w, t.key, id) else w, Duplicate)
        else
          var w' := Insert(cfg, w, NewPayment(t, id, converted, quote, now));
          Processed(if parked then ResolveParked(w', t.key, id) else w', Credited)
  }

  /** Nobody's transfer: parked, already parked, or refused when there is no queue to park it in. */
  function Unattributed(cfg: Config, w: World, t: Transfer, reason: UnmatchedReason, parked: bool,
      now: Time): Processed {
    if parked then Processed(w, Unmatched)
    else if !cfg.queueWired then Processed(w, Rejected)
    else Processed(ParkTransfer(cfg, w, t, reason, now), Unmatched)
  }

  const MAX_SAFE_INTEGER: nat := 0x1f_ffff_ffff_ffff

  predicate Sweepable(row: ParkedRow) {
    row.resolution == Resolution.Pending && row.reason != NoMatchingAddress && row.asset.Some?
  }

  /** A parked transfer as the sweep presents it: final, and without its memo. */
  function Unparked(key: TransferKey, row: ParkedRow): Transfer
    requires row.asset.Some?
  {
    Transfer(key, row.to, row.from, row.asset.value, row.amount, None, MAX_SAFE_INTEGER)
  }

  function Reverse(cfg: Config, w: World, key: TransferKey): World {
    var i := PlaceOf(w.payments, key);
    if i == |w.payments| || w.payments[i].reversed then w else
      var id := w.payments[i].invoiceId;
      var w' := Recompute(w.(payments := w.payments[i := w.payments[i].(reversed := true)]), id);
      if cfg.ledgerWired && id in w.invoices
      then w'.(ledger := ReverseAccrual(w'.ledger, w.invoices[id].terms.organization, key)) else w'
  }

  datatype AttachError = NotFound | AlreadyResolved | InvoiceNotFound | ChainMismatch | AlreadyCredited

  /** Why an operator's attachment is refused, if it is. */
  function AttachRefusal(w: World, key: TransferKey, id: Id): Option<AttachError> {
    if key !in w.parked then Some(NotFound)
    else if w.parked[key].resolution != Resolution.Pending then Some(AlreadyResolved)
    else if id !in w.invoices then Some(InvoiceNotFound)
    else if w.invoices[id].terms.chain != key.chain then Some(ChainMismatch)
    else if HasPayment(w.payments, key) then Some(AlreadyCredited)
    else None
  }

  function Attach(w: World, key: TransferKey, id: Id, now: Time): World
    requires AttachRefusal(w, key, id).None?
  {
    var row := w.parked[key];
    var p := PaymentRow(key, id, row.amount, None, row.from, None, now, false);
    Recompute(w.(payments := w.payments + [p], parked := w.parked[key := row.(resolution := Attached(id))]), id)
  }

  /** Past its deadline, or a day past it when a transfer had been seen. */
  predicate Due(invoice: Invoice, now: Time) {
    || (invoice.status == Status.Pending && invoice.terms.expiresAt <= now)
    || (invoice.status == Confirming && invoice.terms.expiresAt <= now - 24 * 60 * 60 * 1000)
  }

  function Expire(w: World, closed: set<Id>): World {
    w.(invoices := map id | id in w.invoices ::
      if id in closed then w.invoices[id].(status := Expired, referenceActive := false) else w.invoices[id])
  }
}
