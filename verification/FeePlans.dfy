/**
 What an invoice is charged: the rate of the merchant's plan, the volume ladder it is read
 from, and `feeFor` of apps/api/src/domain/fee-plan-service.ts.
 */
module FeePlans {
  import opened Options
  import opened Commission

  datatype Tier = Tier(fromUsdMicros: nat, bps: nat)

  const FEE_TIERS: seq<Tier> := [Tier(250_000_000_000, 40), Tier(50_000_000_000, 45), Tier(0, 50)]
  const DEFAULT_FEE_BPS: nat := 50

  function FirstReached(tiers: seq<Tier>, volume: nat): nat {
    if tiers == [] then DEFAULT_FEE_BPS
    else if volume >= tiers[0].fromUsdMicros then tiers[0].bps
    else FirstReached(tiers[1..], volume)
  }

  /** The tier a monthly volume falls into. */
  function FeeBpsForVolume(volume: nat): nat {
    FirstReached(FEE_TIERS, volume)
  }

  function LastBetter(tiers: seq<Tier>, feeBps: nat): Option<Tier> {
    if tiers == [] then None
    else
      var n := |tiers| - 1;
      if tiers[n].bps < feeBps then Some(tiers[n]) else LastBetter(tiers[..n], feeBps)
  }

  /** The rung below a rate; none for a rate off the ladder. */
  function NextTierFrom(feeBps: nat, negotiated: bool): Option<Tier> {
    if negotiated then None else LastBetter(FEE_TIERS, feeBps)
  }

  lemma Ladder(volume: nat)
    ensures FeeBpsForVolume(volume)
         == if volume >= 250_000_000_000 then 40 else if volume >= 50_000_000_000 then 45 else 50
  {
    var low, last := FEE_TIERS[1..], FEE_TIERS[1..][1..];
    assert last == [Tier(0, 50)] && low == [Tier(50_000_000_000, 45), Tier(0, 50)];
    assert FirstReached(last, volume) == 50;
    assert FirstReached(low, volume) == if volume >= 50_000_000_000 then 45 else 50;
  }

  lemma Rungs(feeBps: nat)
    ensures LastBetter(FEE_TIERS, feeBps)
         == if 50 < feeBps then Some(Tier(0, 50)) else if 45 < feeBps then Some(Tier(50_000_000_000, 45))
            else if 40 < feeBps then Some(Tier(250_000_000_000, 40)) else None
  {
    assert FEE_TIERS[..2] == [Tier(250_000_000_000, 40), Tier(50_000_000_000, 45)];
    assert FEE_TIERS[..2][..1] == [Tier(250_000_000_000, 40)];
    assert FEE_TIERS[..2][..1][..0] == [];
    assert LastBetter(FEE_TIERS[..2][..1], feeBps) == if 40 < feeBps then Some(Tier(250_000_000_000, 40)) else None;
  }

  /** More volume never costs more. */
  lemma MoreVolumeNeverCostsMore(volume: nat, more: nat)
    requires volume <= more
    ensures FeeBpsForVolume(more) <= FeeBpsForVolume(volume)
  {
    Ladder(volume);
    Ladder(more);
  }

  /** The next rung shown is the next change there is: at its threshold, to its rate, and none before. */
  lemma NextTierIsTheNextChange(volume: nat, between: nat)
    ensures var fee := FeeBpsForVolume(volume);
            match NextTierFrom(fee, false)
            case Some(next) =>
              && volume < next.fromUsdMicros && FeeBpsForVolume(next.fromUsdMicros) == next.bps < fee
              && (volume <= between < next.fromUsdMicros ==> FeeBpsForVolume(between) == fee)
            case None => volume <= between ==> FeeBpsForVolume(between) == fee
  {
    Ladder(volume);
    Ladder(between);
    Rungs(FeeBpsForVolume(volume));
    Ladder(50_000_000_000);
    Ladder(250_000_000_000);
  }

  // ── What an invoice is charged ─────────────────────────────────────────────

  datatype Plan = Plan(feeBps: nat, feePayer: FeePayer)

  datatype Charge = Charge(feeDestination: Option<string>, fee: FeeShape, feePayer: FeePayer)

  /** The estimate counts only when there is a dollar figure to divide by. */
  function NetworkEstimate(estimate: nat, value: Option<int>): nat {
    if value.None? || value.value <= 0 then 0 else estimate
  }

  /** A network cost that leaves the merchant's own rate its place under the ceiling. */
  function NetworkFeeBps(plan: Plan, estimate: nat, value: Option<int>): nat {
    Min(NetworkEstimate(estimate, value), Max(0, MAX_FEE_BPS - plan.feeBps))
  }

  /** Nothing without a ledger to read, or a value to size against. */
  function RecoveryBps(plan: Plan, estimate: nat, balance: Option<int>, value: Option<int>): nat {
    if balance.None? || value.None? then 0
    else RecoveryBpsFor(balance.value, plan.feeBps, value.value, NetworkFeeBps(plan, estimate, value))
  }

  /** The fee of a new invoice; none when nothing is charged. */
  function FeeFor(plan: Option<Plan>, pooled: bool, collector: Option<string>, estimate: nat, balance: Option<int>,
      value: Option<int>): Option<Charge> {
    if plan.None? then None
    else if pooled then
      if plan.value.feeBps == 0 then None
      else Some(Charge(None, FeeShape(0, Min(plan.value.feeBps, MAX_FEE_BPS), 0, 0), plan.value.feePayer))
    else if collector.None? || collector.value == "" then None
    else
      var network, recovery :=
        NetworkFeeBps(plan.value, estimate, value), RecoveryBps(plan.value, estimate, balance, value);
      if plan.value.feeBps == 0 && network == 0 && recovery == 0 then None
      else
        var feeBps := Min(plan.value.feeBps + network + recovery, MAX_FEE_BPS);
        Some(Charge(collector, FeeShape(feeBps, 0, recovery, network), plan.value.feePayer))
  }

  /**
   A merchant with a rate is charged, unless there is nowhere to send a fee taken on chain. The
   parts of a charged fee fit under the ceiling. The final clamp bites for no plan the column
   allows, and for every other; and the payer's surcharge is the merchant's own rate, clamped.
   */
  lemma FeePartsFit(plan: Plan, pooled: bool, collector: Option<string>, estimate: nat, balance: Option<int>,
      value: Option<int>)
    ensures plan.feeBps > 0 ==>
              (FeeFor(Some(plan), pooled, collector, estimate, balance, value).Some?
          <==> pooled || (collector.Some? && collector.value != ""))
    ensures var charge := FeeFor(Some(plan), pooled, collector, estimate, balance, value);
            charge.Some? ==>
              var fee := charge.value.fee;
              && fee.recoveryBps + fee.networkFeeBps <= fee.feeBps <= MAX_FEE_BPS
              && fee.recoveryBps <= RECOVERY_MAX_BPS
              && SurchargeBps(Some(fee)) == Min(plan.feeBps, MAX_FEE_BPS)
              && (!pooled ==>
                (fee.feeBps == plan.feeBps + fee.networkFeeBps + fee.recoveryBps <==> plan.feeBps <= MAX_FEE_BPS))
              && (pooled ==>
                fee == FeeShape(0, Min(plan.feeBps, MAX_FEE_BPS), 0, 0) && charge.value.feeDestination.None?)
              && (!pooled ==> charge.value.feeDestination == collector && fee.accruedFeeBps == 0)
              && charge.value.feePayer == plan.feePayer
  {}

  /** Every fee that is charged can be disclosed, and the rates shown are within the ceiling. */
  lemma ChargedFeesAreDisclosed(plan: Option<Plan>, pooled: bool, collector: Option<string>, estimate: nat,
                                balance: Option<int>, value: Option<int>, amountDue: int, payer: FeePayer)
    ensures var charge := FeeFor(plan, pooled, collector, estimate, balance, value);
            charge.Some? ==> DisclosedFees(amountDue, Some(charge.value.fee), payer).Some?
  {
    var charge := FeeFor(plan, pooled, collector, estimate, balance, value);
    if charge.Some? {
      FeePartsFit(plan.value, pooled, collector, estimate, balance, value);
      DisclosureAddsUp(amountDue, Some(charge.value.fee), payer);
    }
  }

  /** Room for the merchant's rate comes first, then for the network's, and the recovery takes what is left. */
  lemma RecoveryWaits(plan: Plan, collector: Option<string>, estimate: nat, balance: int, value: int)
    requires plan.feeBps <= MAX_FEE_BPS && collector.Some? && collector.value != "" && value > 0
    ensures var charge := FeeFor(Some(plan), false, collector, estimate, Some(balance), Some(value));
            charge.Some? && charge.value.fee.networkFeeBps < estimate ==>
              charge.value.fee.feeBps == MAX_FEE_BPS && charge.value.fee.recoveryBps == 0
  {}

  /** Per payment, what the parts take of a value is at most two units short of what the fee takes. */
  lemma PartsOfACharge(plan: Plan, collector: Option<string>, estimate: nat, balance: Option<int>,
      value: Option<int>, paid: nat)
    ensures var charge := FeeFor(Some(plan), false, collector, estimate, balance, value);
            charge.Some? ==>
              var fee := charge.value.fee;
              && fee.feeBps - fee.recoveryBps - fee.networkFeeBps == Min(plan.feeBps, MAX_FEE_BPS)
              && var parts :=
                Cut(paid, Min(plan.feeBps, MAX_FEE_BPS)) + Cut(paid, fee.recoveryBps) + Cut(paid, fee.networkFeeBps);
                 parts <= Cut(paid, fee.feeBps) <= parts + 2
  {
    var charge := FeeFor(Some(plan), false, collector, estimate, balance, value);
    if charge.Some? {
      FeePartsFit(plan, false, collector, estimate, balance, value);
      PartsOfTheFee(paid, Min(plan.feeBps, MAX_FEE_BPS), charge.value.fee.recoveryBps, charge.value.fee.networkFeeBps);
    }
  }

  // ── The parts of a fee, in plain arithmetic ────────────────────────────────

  /** The network's cost is its estimate, or what the merchant's rate leaves of 500; nothing without a value. */
  lemma NetworkCost(plan: Plan, pooled: bool, collector: Option<string>, estimate: nat, balance: Option<int>,
      value: Option<int>)
    ensures var charge := FeeFor(Some(plan), pooled, collector, estimate, balance, value);
            charge.Some? ==>
              var network := charge.value.fee.networkFeeBps;
              if pooled || value.None? || value.value <= 0 then network == 0
              else
                && network <= estimate && network + plan.feeBps <= (if plan.feeBps <= 500 then 500 else plan.feeBps)
                && (network == estimate || network + plan.feeBps == 500 || plan.feeBps > 500)
  {}

  /**
   The recovery is the largest rate up to 200 that fits beside the other two under 500 and takes
   no more of the value than is owed; none without a ledger, a value or a debt.
   */
  lemma RecoveryCharged(plan: Plan, collector: Option<string>, estimate: nat, balance: Option<int>, value: Option<int>,
                        bps: nat)
    requires collector.Some? && collector.value != "" && plan.feeBps > 0
    ensures var charge := FeeFor(Some(plan), false, collector, estimate, balance, value);
            && charge.Some?
            && var fee := charge.value.fee;
               if balance.None? || value.None? || value.value <= 0 || balance.value >= 0 then fee.recoveryBps == 0
               else bps > 0 ==>
                 (bps <= fee.recoveryBps <==>
                    && bps <= 200 && plan.feeBps + fee.networkFeeBps + bps <= 500
                    && bps * value.value <= -balance.value * 10000)
  {
    FeePartsFit(plan, false, collector, estimate, balance, value);
    if balance.Some? && value.Some? && value.value > 0 && balance.value < 0 {
      RecoveryIsLargest(balance.value, plan.feeBps, value.value, NetworkFeeBps(plan, estimate, value), bps);
    }
  }

  /** Without a plan nothing is charged; without a rate, what is charged is the network's cost and a recovery. */
  lemma NothingToCharge(plan: Plan, pooled: bool, collector: Option<string>, estimate: nat, balance: Option<int>,
      value: Option<int>)
    ensures FeeFor(None, pooled, collector, estimate, balance, value).None?
    ensures plan.feeBps == 0 && (pooled || collector.None? || collector.value == "") ==>
              FeeFor(Some(plan), pooled, collector, estimate, balance, value).None?
    ensures plan.feeBps == 0 && !pooled && collector.Some? && collector.value != "" ==>
              var charge := FeeFor(Some(plan), pooled, collector, estimate, balance, value);
              charge.Some? ==>
                var fee := charge.value.fee;
                fee.feeBps == fee.networkFeeBps + fee.recoveryBps > 0
  {}
}
