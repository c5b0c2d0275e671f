/**
 The rules of `PooledMatching` in the numbers and statuses they are about: when a transfer may
 pay an invoice exactly, when its sender is completing one, when one is open, and what is decided
 from those.
 */
module MatchingRules {
  import opened DecimalPowers
  import opened PooledMatching

  /** Open: pending or confirming, and before its deadline. */
  predicate OpenAt(c: CandidateInvoice, now: Time) {
    (c.status == Pending || c.status == Confirming) && now < c.expiresAt
  }

  /** The invoice was there when the transfer was seen. */
  predicate WasIssued(t: ObservedTransfer, c: CandidateInvoice) {
    c.createdAt <= t.seenAt
  }

  /** The transfer is of the invoice's amount, and the invoice is open or closed for less than a day. */
  predicate PaysExactly(t: ObservedTransfer, now: Time, c: CandidateInvoice) {
    && WasIssued(t, c) && t.amount * Pow10(c.decimals) == c.amountDue * Pow10(t.decimals)
    && (OpenAt(c, now) || now - c.expiresAt < 86_400_000)
  }

  predicate FromSender(t: ObservedTransfer, now: Time, c: CandidateInvoice, p: PriorPayment) {
    t.from.Some? && p.from == t.from && p.invoiceId == c.id && now - p.creditedAt <= 86_400_000
  }

  /** The sender paid toward the invoice within a day, and it is not paid in full or expired. */
  predicate IsCompleting(t: ObservedTransfer, now: Time, c: CandidateInvoice, priors: set<PriorPayment>) {
    && WasIssued(t, c) && (c.status == Pending || c.status == Confirming || c.status == Underpaid)
    && exists p :: p in priors && FromSender(t, now, c, p)
  }

  lemma ExactOnesAre(t: ObservedTransfer, now: Time, all: set<CandidateInvoice>)
    ensures ExactOnes(t, now, all) == set c | c in all && PaysExactly(t, now, c)
  {
    forall c | c in all ensures c in ExactOnes(t, now, all) <==> PaysExactly(t, now, c) {
      SameValue(t.amount, t.decimals, c.amountDue, c.decimals);
    }
  }

  lemma OpenOnesAre(t: ObservedTransfer, now: Time, all: set<CandidateInvoice>)
    ensures OpenOnes(t, now, all) == set c | c in all && WasIssued(t, c) && OpenAt(c, now)
  {}

  lemma CompletingAre(t: ObservedTransfer, now: Time, all: set<CandidateInvoice>, priors: set<PriorPayment>)
    ensures Completing(t, now, all, priors) == set c | c in all && IsCompleting(t, now, c, priors)
  {
    forall c | c in all ensures c in Completing(t, now, all, priors) <==> IsCompleting(t, now, c, priors) {
      if p :| p in priors && p.invoiceId == c.id && p.from == t.from && p.creditedAt >= now - LATE_PAYMENT_GRACE_MS {
        assert t.from.Some? ==> FromSender(t, now, c, p);
      }
      if p :| p in priors && FromSender(t, now, c, p) { assert PaidBy(t, now, priors, c.id); }
    }
  }

  /** The one invoice a transfer pays exactly gets it, and of several the one that is open. */
  lemma ExactAmountDecides(t: ObservedTransfer, now: Time, all: set<CandidateInvoice>, priors: set<PriorPayment>,
                           c: CandidateInvoice)
    requires c in all && PaysExactly(t, now, c)
    requires (forall d :: d in all && d != c ==> !PaysExactly(t, now, d))
          || (OpenAt(c, now) && forall d :: d in all && d != c ==> !PaysExactly(t, now, d) || !OpenAt(d, now))
    ensures Decide(t, now, all, priors)
         == Credit(c.id, if OpenAt(c, now) then ExactAmount else ExactAmountLate, c.assetKey == t.assetKey)
  {
    ExactOnesAre(t, now, all);
    OpenOnesAre(t, now, all);
    var exact, open := ExactOnes(t, now, all), OpenOnes(t, now, all);
    assert c in exact && (OpenAt(c, now) <==> c in open);
    if forall d :: d in all && d != c ==> !PaysExactly(t, now, d) {
      assert exact == {c};
    } else {
      assert exact * open == {c} && |exact| > 0;
      if |exact| == 1 { OneElement(exact); }
    }
  }

  /** Several that it pays exactly and no single open one among them: an operator decides. */
  lemma ExactAmountIsAmbiguous(t: ObservedTransfer, now: Time, all: set<CandidateInvoice>, priors: set<PriorPayment>,
                               c: CandidateInvoice, d: CandidateInvoice)
    requires c in all && d in all && c != d && PaysExactly(t, now, c) && PaysExactly(t, now, d)
    requires OpenAt(c, now) <==> OpenAt(d, now)
    requires OpenAt(c, now) || forall e :: e in all && PaysExactly(t, now, e) ==> !OpenAt(e, now)
    ensures Decide(t, now, all, priors) == Park(Ambiguous)
  {
    ExactOnesAre(t, now, all);
    OpenOnesAre(t, now, all);
    var exact, open := ExactOnes(t, now, all), OpenOnes(t, now, all);
    assert c in exact && d in exact;
    TwoAreMore(exact, c, d);
    if OpenAt(c, now) { TwoAreMore(exact * open, c, d); } else { assert exact * open == {}; }
  }

  lemma TwoAreMore(s: set<CandidateInvoice>, c: CandidateInvoice, d: CandidateInvoice)
    requires c in s && d in s && c != d
    ensures |s| > 1
  {
    assert |s - {c}| > 0 by { assert d in s - {c}; }
    assert s == (s - {c}) + {c};
  }

  /** With no exact amount, the one invoice its sender is completing gets it; of several, none does. */
  lemma SenderDecides(t: ObservedTransfer, now: Time, all: set<CandidateInvoice>, priors: set<PriorPayment>,
                      c: CandidateInvoice)
    requires forall d :: d in all ==> !PaysExactly(t, now, d)
    requires c in all && IsCompleting(t, now, c, priors)
    ensures Decide(t, now, all, priors)
         == if exists d :: d in all && d != c && IsCompleting(t, now, d, priors) then Park(Ambiguous)
            else Credit(c.id, SameSender, c.assetKey == t.assetKey)
  {
    ExactOnesAre(t, now, all);
    CompletingAre(t, now, all, priors);
    var completing := Completing(t, now, all, priors);
    assert ExactOnes(t, now, all) == {} && c in completing;
    if d :| d in all && d != c && IsCompleting(t, now, d, priors) {
      TwoAreMore(completing, c, d);
    } else {
      assert completing == {c};
    }
  }

  /** With neither, the only open invoice gets it; with none open it came too late, with several nobody knows. */
  lemma OpenInvoiceDecides(t: ObservedTransfer, now: Time, all: set<CandidateInvoice>, priors: set<PriorPayment>)
    requires forall d :: d in all ==> !PaysExactly(t, now, d) && !IsCompleting(t, now, d, priors)
    ensures (forall d :: d in all && WasIssued(t, d) ==> !OpenAt(d, now)) ==>
              Decide(t, now, all, priors) == Park(InvoiceExpired)
    ensures forall c | c in all && WasIssued(t, c) && OpenAt(c, now) ::
              Decide(t, now, all, priors) ==
              if exists d :: d in all && d != c && WasIssued(t, d) && OpenAt(d, now) then Park(Ambiguous)
              else Credit(c.id, SoleOpen, c.assetKey == t.assetKey)
  {
    ExactOnesAre(t, now, all);
    OpenOnesAre(t, now, all);
    CompletingAre(t, now, all, priors);
    var open := OpenOnes(t, now, all);
    assert ExactOnes(t, now, all) == {} && Completing(t, now, all, priors) == {};
    forall c | c in all && WasIssued(t, c) && OpenAt(c, now)
      ensures Decide(t, now, all, priors)
           == if exists d :: d in all && d != c && WasIssued(t, d) && OpenAt(d, now) then Park(Ambiguous)
              else Credit(c.id, SoleOpen, c.assetKey == t.assetKey)
    {
      assert c in open;
      if d :| d in all && d != c && WasIssued(t, d) && OpenAt(d, now) {
        TwoAreMore(open, c, d);
      } else {
        assert open == {c};
      }
    }
  }
}
