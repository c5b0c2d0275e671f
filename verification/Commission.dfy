/**
 How a commission is sized, collected and shown: the pure part of
 apps/api/src/domain/commission-ledger.ts, with `feeOnAmount` of packages/core/src/fees.
 */
module Commission {
  import opened Options
  import opened CreditingState
  import opened CreditingRuns

  /** The forwarder's ceiling, and the most one invoice's fee is raised to recover a balance. */
  const MAX_FEE_BPS: nat := 500
  const RECOVERY_MAX_BPS: nat := 200

  function Min(a: int, b: int): int { if a < b then a else b }

  function Max(a: int, b: int): int { if a < b then b else a }

  /** The part of a value that a rate takes, rounded down. */
  function Cut(value: nat, bps: nat): nat {
    Share(Some(value), bps)
  }

  lemma CutBounds(value: nat, bps: nat)
    ensures 10000 * Cut(value, bps) <= value * bps < 10000 * Cut(value, bps) + 10000
  {}

  lemma Products(a: nat, b: nat, c: nat)
    requires a <= b
    ensures a * c <= b * c
  {}

  lemma CutMonotone(value: nat, value': nat, bps: nat)
    requires value <= value'
    ensures Cut(value, bps) <= Cut(value', bps)
  {
    Products(value, value', bps);
    CutBounds(value, bps);
    CutBounds(value', bps);
  }

  /** What is left under the ceiling, and under the recovery's own. */
  function RecoveryCap(planFeeBps: nat, networkFeeBps: nat): (cap: nat)
    ensures cap <= RECOVERY_MAX_BPS && (cap > 0 ==> planFeeBps + networkFeeBps + cap <= MAX_FEE_BPS)
  {
    Min(RECOVERY_MAX_BPS, Max(0, MAX_FEE_BPS - planFeeBps - networkFeeBps))
  }

  /** The share of the value that pays off the debt, in whole basis points below it and under the cap. */
  function RecoveryBpsFor(balance: int, planFeeBps: nat, value: int, networkFeeBps: nat): (bps: nat)
    ensures bps <= RecoveryCap(planFeeBps, networkFeeBps)
  {
    if balance >= 0 || value <= 0 then 0
    else
      var owed := -balance;
      var exact := owed * 10000 / value;
      var cap := RecoveryCap(planFeeBps, networkFeeBps);
      if cap == 0 then 0 else if exact > cap then cap else exact
  }

  lemma Quotient(a: nat, b: nat)
    requires b > 0
    ensures a / b * b <= a < a / b * b + b
  {}

  lemma AtLeastOne(a: nat, b: nat)
    requires b > 0
    ensures a / b >= 1 <==> a >= b
  {
    Quotient(a, b);
    if a / b >= 1 { Products(1, a / b, b); }
  }

  /** A recovery collects no more than is owed, when no more is paid than was quoted. */
  lemma RecoveryFitsDebt(balance: int, planFeeBps: nat, value: nat, networkFeeBps: nat, paid: nat)
    requires balance <= 0 && paid <= value
    ensures Cut(paid, RecoveryBpsFor(balance, planFeeBps, value, networkFeeBps)) <= -balance
  {
    var bps := RecoveryBpsFor(balance, planFeeBps, value, networkFeeBps);
    CutMonotone(paid, value, bps);
    CutBounds(value, bps);
    if bps > 0 {
      var owed := -balance;
      Quotient(owed * 10000, value);
      Products(bps, owed * 10000 / value, value);
      assert value * bps <= owed * 10000;
    }
  }

  /** It collects something exactly when the rate is not rounded to nothing and there is room for one. */
  lemma RecoveryCollects(balance: int, planFeeBps: nat, value: nat, networkFeeBps: nat)
    requires balance < 0 && value >= 10000
    ensures Cut(value, RecoveryBpsFor(balance, planFeeBps, value, networkFeeBps)) > 0
       <==> value <= -balance * 10000 && RecoveryCap(planFeeBps, networkFeeBps) > 0
  {
    var bps, owed := RecoveryBpsFor(balance, planFeeBps, value, networkFeeBps), -balance;
    CutBounds(value, bps);
    Quotient(owed * 10000, value);
    AtLeastOne(owed * 10000, value);
    if bps > 0 { Products(1, bps, value); }
  }

  /** The rate is the largest there is room for that collects no more than is owed. */
  lemma RecoveryIsLargest(balance: int, planFeeBps: nat, value: nat, networkFeeBps: nat, bps: nat)
    requires balance < 0 && value > 0
    ensures bps <= RecoveryBpsFor(balance, planFeeBps, value, networkFeeBps)
       <==> bps <= RecoveryCap(planFeeBps, networkFeeBps) && bps * value <= -balance * 10000
  {
    var owed := -balance;
    Quotient(owed * 10000, value);
    var exact := owed * 10000 / value;
    if bps <= exact { Products(bps, exact, value); } else { Products(exact + 1, bps, value); }
  }

  // ── Over any sequence ──────────────────────────────────────────────────────

  /** What can move a balance: an invoice sized against it and then paid, or a new commission owed. */
  datatype Movement =
    | Sized(planFeeBps: nat, networkFeeBps: nat, value: nat, paid: nat)
    | Owed(commission: nat)

  function Move(balance: int, m: Movement): int {
    match m
    case Owed(commission) => balance - commission
    case Sized(plan, network, value, paid) => balance + Cut(paid, RecoveryBpsFor(balance, plan, value, network))
  }

  function MoveAll(balance: int, movements: seq<Movement>): int {
    if movements == [] then balance
    else Move(MoveAll(balance, movements[..|movements| - 1]), movements[|movements| - 1])
  }

  /** No invoice is paid more than it was quoted at. */
  predicate NoneOverpaid(movements: seq<Movement>) {
    forall m :: m in movements && m.Sized? ==> m.paid <= m.value
  }

  /** However recoveries and commissions follow one another, a debt never turns into a credit. */
  lemma {:induction false} NeverOverCollects(balance: int, movements: seq<Movement>)
    requires balance <= 0 && NoneOverpaid(movements)
    ensures MoveAll(balance, movements) <= 0
  {
    if movements != [] {
      var last, rest := movements[|movements| - 1], movements[..|movements| - 1];
      NeverOverCollects(balance, rest);
      assert last in movements;
      if last.Sized? {
        RecoveryFitsDebt(MoveAll(balance, rest), last.planFeeBps, last.value, last.networkFeeBps, last.paid);
      }
    }
  }

  /** Invoices of one value, each with room for a recovery, paid as quoted. */
  predicate Regular(movements: seq<Movement>, value: nat) {
    forall m :: m in movements ==>
      m.Sized? && m.value == value && m.paid == value && RecoveryCap(m.planFeeBps, m.networkFeeBps) > 0
  }

  lemma {:induction false} DebtShrinks(balance: int, movements: seq<Movement>, value: nat)
    requires balance <= 0 && value >= 10000 && Regular(movements, value)
    ensures MoveAll(balance, movements) <= 0
    ensures -MoveAll(balance, movements) * 10000 < value || -MoveAll(balance, movements) + |movements| <= -balance
  {
    if movements != [] {
      var last, rest := movements[|movements| - 1], movements[..|movements| - 1];
      DebtShrinks(balance, rest, value);
      assert last in movements;
      var before := MoveAll(balance, rest);
      RecoveryFitsDebt(before, last.planFeeBps, value, last.networkFeeBps, value);
      if before < 0 { RecoveryCollects(before, last.planFeeBps, value, last.networkFeeBps); }
    }
  }

  /** Enough such invoices collect a debt down to less than a hundredth of a percent of one of them. */
  lemma DebtIsCollected(balance: int, movements: seq<Movement>, value: nat)
    requires balance <= 0 && value >= 10000 && Regular(movements, value) && |movements| >= -balance
    ensures 0 <= -MoveAll(balance, movements) * 10000 < value
  {
    DebtShrinks(balance, movements, value);
  }

  /** Two invoices sized against one balance, before either is paid, can collect the debt twice. */
  lemma OverlappingRecoveriesOvershoot()
    ensures var balance, value := -100_000, 10_000_000;
            var bps := RecoveryBpsFor(balance, 50, value, 0);
            balance + Cut(value, bps) == 0 && balance + Cut(value, bps) + Cut(value, bps) == 100_000
  {
    assert 100_000 * 10000 / 10_000_000 == 100;
    assert 10_000_000 * 100 / 10000 == 100_000;
  }

  function Total(paid: seq<nat>): nat {
    if paid == [] then 0 else Total(paid[..|paid| - 1]) + paid[|paid| - 1]
  }

  function Cuts(paid: seq<nat>, bps: nat): nat {
    if paid == [] then 0 else Cuts(paid[..|paid| - 1], bps) + Cut(paid[|paid| - 1], bps)
  }

  lemma {:induction false} CutsFitTotal(paid: seq<nat>, bps: nat)
    ensures Cuts(paid, bps) <= Cut(Total(paid), bps)
  {
    if paid == [] {
      CutBounds(0, bps);
    } else {
      var last, rest := paid[|paid| - 1], paid[..|paid| - 1];
      CutsFitTotal(rest, bps);
      CutBounds(Total(rest), bps);
      CutBounds(last, bps);
      CutBounds(Total(rest) + last, bps);
      assert (Total(rest) + last) * bps == Total(rest) * bps + last * bps;
    }
  }

  /** One invoice, paid in parts, collects no more than is owed when the parts are within its quote. */
  lemma PaidInParts(balance: int, plan: nat, network: nat, value: nat, paid: seq<nat>)
    requires balance <= 0 && Total(paid) <= value
    ensures balance + Cuts(paid, RecoveryBpsFor(balance, plan, value, network)) <= 0
  {
    CutsFitTotal(paid, RecoveryBpsFor(balance, plan, value, network));
    RecoveryFitsDebt(balance, plan, value, network, Total(paid));
  }

  /** An invoice as it was quoted: what its rate is sized from, beside the balance. */
  datatype Quoted = Quoted(planFeeBps: nat, networkFeeBps: nat, value: nat) {
    function Bps(balance: int): nat { RecoveryBpsFor(balance, planFeeBps, value, networkFeeBps) }
  }

  /** What invoices all sized against one balance collect, each paid in these parts. */
  function Collected(balance: int, quotes: seq<Quoted>, paid: seq<seq<nat>>): nat
    requires |paid| == |quotes|
  {
    if quotes == [] then 0
    else
      var n := |quotes| - 1;
      Collected(balance, quotes[..n], paid[..n]) + Cuts(paid[n], quotes[n].Bps(balance))
  }

  /** Their cuts at the quoted values, together: known before any is paid. */
  function CutsAtQuote(balance: int, quotes: seq<Quoted>): nat {
    if quotes == [] then 0
    else
      var n := |quotes| - 1;
      CutsAtQuote(balance, quotes[..n]) + Cut(quotes[n].value, quotes[n].Bps(balance))
  }

  /** No invoice is paid more than it was quoted at, in however many parts. */
  ghost predicate WithinQuotes(quotes: seq<Quoted>, paid: seq<seq<nat>>) {
    |paid| == |quotes| && forall i :: 0 <= i < |quotes| ==> Total(paid[i]) <= quotes[i].value
  }

  /** However they are paid within their quotes, together they leave no credit. */
  ghost predicate NeverOvershoots(balance: int, quotes: seq<Quoted>) {
    forall paid: seq<seq<nat>> :: WithinQuotes(quotes, paid) ==> balance + Collected(balance, quotes, paid) <= 0
  }

  lemma {:induction false} CollectsAtMostQuoted(balance: int, quotes: seq<Quoted>, paid: seq<seq<nat>>)
    requires WithinQuotes(quotes, paid)
    ensures Collected(balance, quotes, paid) <= CutsAtQuote(balance, quotes)
  {
    if quotes != [] {
      var n := |quotes| - 1;
      CollectsAtMostQuoted(balance, quotes[..n], paid[..n]);
      CutsFitTotal(paid[n], quotes[n].Bps(balance));
      CutMonotone(Total(paid[n]), quotes[n].value, quotes[n].Bps(balance));
    }
  }

  /** Each invoice paid at once, and in full. */
  function InFull(quotes: seq<Quoted>): (paid: seq<seq<nat>>)
    ensures |paid| == |quotes|
  {
    seq(|quotes|, i requires 0 <= i < |quotes| => [quotes[i].value])
  }

  lemma OnePart(value: nat, bps: nat)
    ensures Total([value]) == value && Cuts([value], bps) == Cut(value, bps)
  {
    assert [value][..0] == [];
  }

  lemma {:induction false} CollectedInFull(balance: int, quotes: seq<Quoted>)
    ensures Collected(balance, quotes, InFull(quotes)) == CutsAtQuote(balance, quotes)
    ensures WithinQuotes(quotes, InFull(quotes))
  {
    forall i: nat | i < |quotes| ensures Total(InFull(quotes)[i]) <= quotes[i].value { OnePart(quotes[i].value, 0); }
    if quotes != [] {
      var n := |quotes| - 1;
      CollectedInFull(balance, quotes[..n]);
      assert InFull(quotes)[..n] == InFull(quotes[..n]);
      OnePart(quotes[n].value, quotes[n].Bps(balance));
    }
  }

  /** Invoices sized against one balance never over-collect it exactly when their cuts at the quoted values fit. */
  lemma InFlightTogether(balance: int, quotes: seq<Quoted>)
    ensures NeverOvershoots(balance, quotes) <==> CutsAtQuote(balance, quotes) <= -balance
  {
    CollectedInFull(balance, quotes);
    forall paid: seq<seq<nat>> | WithinQuotes(quotes, paid)
      ensures Collected(balance, quotes, paid) <= CutsAtQuote(balance, quotes)
    {
      CollectsAtMostQuoted(balance, quotes, paid);
    }
  }

  lemma {:induction false} CutsOfSame(balance: int, quote: Quoted, quotes: seq<Quoted>)
    requires forall i :: 0 <= i < |quotes| ==> quotes[i] == quote
    ensures CutsAtQuote(balance, quotes) == |quotes| * Cut(quote.value, quote.Bps(balance))
  {
    if quotes != [] {
      var rest := quotes[..|quotes| - 1];
      CutsOfSame(balance, quote, rest);
      var cut := Cut(quote.value, quote.Bps(balance));
      assert |rest| * cut + cut == |quotes| * cut;
    }
  }

  /** So do n invoices quoted alike exactly when n times the cut of one is at most the debt. */
  lemma AlikeInFlight(balance: int, quote: Quoted, n: nat)
    ensures NeverOvershoots(balance, seq(n, _ => quote)) <==> n * Cut(quote.value, quote.Bps(balance)) <= -balance
  {
    InFlightTogether(balance, seq(n, _ => quote));
    CutsOfSame(balance, quote, seq(n, _ => quote));
  }

  /** The same on the ledger: sized from the balance and entered when the payment is credited. */
  lemma RecoveryOnTheLedger(ledger: seq<Entry>, terms: Terms, p: PaymentRow, planFeeBps: nat, networkFeeBps: nat,
      quoted: nat, key: TransferKey)
    requires !HasEntry(ledger, p.key, Recovery) && p.valueUsdMicros.Some? && p.valueUsdMicros.value <= quoted
    requires terms.recoveryBps == RecoveryBpsFor(Balance(ledger, terms.organization), planFeeBps, quoted, networkFeeBps)
    ensures var before := Balance(ledger, terms.organization);
            var after := Balance(Recover(ledger, terms, p), terms.organization);
            && after == Move(before, Sized(planFeeBps, networkFeeBps, quoted, p.valueUsdMicros.value))
            && (before <= 0 ==> after <= 0)
  {
    RecoverNew(ledger, terms, p, terms.organization, key);
    if Balance(ledger, terms.organization) <= 0 {
      RecoveryFitsDebt(Balance(ledger, terms.organization), planFeeBps, quoted, networkFeeBps, p.valueUsdMicros.value);
    }
  }

  // ── What the payer is shown ────────────────────────────────────────────────

  datatype FeePayer = Merchant | Payer

  /** The rates an invoice carries. */
  datatype FeeShape = FeeShape(feeBps: nat, accruedFeeBps: nat, recoveryBps: nat, networkFeeBps: nat)

  /** What a payer who bears the fee is charged for the commission: the fee less its other parts. */
  function SurchargeBps(fee: Option<FeeShape>): nat {
    match fee
    case None => 0
    case Some(f) => Max(0, f.feeBps - f.recoveryBps - f.networkFeeBps + f.accruedFeeBps)
  }

  function NetworkBps(fee: Option<FeeShape>): nat {
    match fee
    case None => 0
    case Some(f) => f.networkFeeBps
  }

  function PayerFeeBps(fee: Option<FeeShape>, payer: FeePayer): nat {
    (if payer == Payer then SurchargeBps(fee) else 0) + NetworkBps(fee)
  }

  /** None when the rate is one the forwarder does not accept. */
  function FeeOnAmount(amount: int, bps: nat): Option<nat> {
    if bps > MAX_FEE_BPS then None else if amount <= 0 then Some(0) else Some(Cut(amount, bps))
  }

  datatype Disclosure = Disclosure(total: int, commission: int, network: int, commissionBps: nat, networkBps: nat)

  function DisclosedFees(amountDue: int, fee: Option<FeeShape>, payer: FeePayer): Option<Disclosure> {
    var networkBps := NetworkBps(fee);
    var commissionBps := if payer == Payer then SurchargeBps(fee) else 0;
    var total, network := FeeOnAmount(amountDue, commissionBps + networkBps), FeeOnAmount(amountDue, networkBps);
    if total.None? || network.None? then None
    else Some(Disclosure(total.value, total.value - network.value, network.value, commissionBps, networkBps))
  }

  /** A payer who bears the fee is shown all of it but the recovery; another only what the network costs. */
  lemma PayerIsShown(fee: FeeShape, payer: FeePayer)
    ensures PayerFeeBps(None, payer) == 0 && PayerFeeBps(Some(fee), Merchant) == fee.networkFeeBps
    ensures PayerFeeBps(Some(fee), Payer)
         == if fee.recoveryBps + fee.networkFeeBps <= fee.feeBps + fee.accruedFeeBps
            then fee.feeBps + fee.accruedFeeBps - fee.recoveryBps else fee.networkFeeBps
    ensures NetworkBps(Some(fee)) == fee.networkFeeBps
  {}

  /** A rate up to 500 of an amount, rounded down; of nothing, nothing. */
  lemma FeeInUnits(amount: int, bps: nat)
    ensures FeeOnAmount(amount, bps).None? <==> bps > 500
    ensures bps <= 500 ==>
              var fee := FeeOnAmount(amount, bps).value;
              if amount > 0 then 10000 * fee <= amount * bps < 10000 * (fee + 1) else fee == 0
  {
    if amount > 0 { CutBounds(amount, bps); }
  }

  /** Cuts taken one by one take no more than one cut at their joint rate, and one less at most. */
  lemma TwoCuts(value: nat, a: nat, b: nat)
    ensures Cut(value, a) + Cut(value, b) <= Cut(value, a + b) <= Cut(value, a) + Cut(value, b) + 1
  {
    CutBounds(value, a);
    CutBounds(value, b);
    CutBounds(value, a + b);
    assert value * (a + b) == value * a + value * b;
  }

  /** The two lines shown add up, neither is negative, and the commission's is at most a unit over its own floor. */
  lemma DisclosureAddsUp(amountDue: int, fee: Option<FeeShape>, payer: FeePayer)
    ensures DisclosedFees(amountDue, fee, payer).Some? <==> PayerFeeBps(fee, payer) <= MAX_FEE_BPS
    ensures var d := DisclosedFees(amountDue, fee, payer);
            d.Some? ==>
              && FeeOnAmount(amountDue, PayerFeeBps(fee, payer)) == Some(d.value.total)
              && d.value.commission + d.value.network == d.value.total
              && d.value.commissionBps + d.value.networkBps == PayerFeeBps(fee, payer)
              && d.value.networkBps == NetworkBps(fee)
              && d.value.commission >= 0 && FeeOnAmount(amountDue, d.value.networkBps) == Some(d.value.network)
              && (amountDue >= 0 ==>
                    var cut := Cut(amountDue, d.value.commissionBps); cut <= d.value.commission <= cut + 1)
  {
    if amountDue >= 0 {
      TwoCuts(amountDue, if payer == Payer then SurchargeBps(fee) else 0, NetworkBps(fee));
    }
  }

  /** A payment's commission, recovery and network cost, each rounded down, against the whole fee. */
  lemma PartsOfTheFee(value: nat, commission: nat, recovery: nat, network: nat)
    ensures var whole, parts := Cut(value, commission + recovery + network),
                                Cut(value, commission) + Cut(value, recovery) + Cut(value, network);
            parts <= whole <= parts + 2
  {
    TwoCuts(value, commission, recovery);
    TwoCuts(value, commission + recovery, network);
  }

  /** And two is as far as it goes. */
  lemma PartsCanFallTwoShort()
    ensures Cut(9999, 3) == Cut(9999, 1) + Cut(9999, 1) + Cut(9999, 1) + 2
  {
    assert 9999 * 3 / 10000 == 2;
  }
}
