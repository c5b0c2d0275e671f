/**
 What expiry does not do: a late payment moves an expired invoice on, and a reversal of that
 payment leaves it pending and not expired, against the remark in
 apps/api/src/domain/payment-sink.ts that an invoice which had expired stays expired.
 */
module InvoiceExpiry {
  import opened Options
  import opened PooledMatching
  import opened CreditingState
  import opened CreditingRuns
  import opened CreditingSafety

  lemma {:induction false} ReversedPaysNoMore(payments: seq<PaymentRow>, i: nat, id: Id)
    requires i < |payments|
    ensures AmountPaid(payments[i := payments[i].(reversed := true)], id) <= AmountPaid(payments, id)
  {
    var n := |payments| - 1;
    var after := payments[i := payments[i].(reversed := true)];
    if i < n {
      ReversedPaysNoMore(payments[..n], i, id);
      assert after[..n] == payments[..n][i := payments[i].(reversed := true)];
    } else {
      assert after[..n] == payments[..n];
    }
  }

  /**
   A reversal leaves an invoice expired exactly when it was marked expired just before. One that
   expired and was then paid late is not, and goes back to pending with its last payment.
   */
  lemma ReversalReopens(cfg: Config, w: World, key: TransferKey)
    requires Inv(cfg, w) && HasPayment(w.payments, key) && !Withdrawn(w, key)
    ensures var id := w.payments[PlaceOf(w.payments, key)].invoiceId;
            && id in w.invoices && id in Reverse(cfg, w, key).invoices
            && var before, after := w.invoices[id], Reverse(cfg, w, key).invoices[id];
            && (after.status == Expired <==> before.status == Expired)
            && (after.amountPaid == 0 && before.amountPaid != 0 ==> after.status == Status.Pending)
  {
    var i := PlaceOf(w.payments, key);
    ReversedPaysNoMore(w.payments, i, w.payments[i].invoiceId);
    assert Agrees(w.payments, w.payments[i].invoiceId, w.invoices[w.payments[i].invoiceId]);
  }

  lemma LatePayment(cfg: Config, id: Id, terms: Terms, w: World, t: Transfer, quote: Quote)
    requires w == World(map[id := Invoice(terms, 0, Expired, false, false)], [], map[], [])
    requires terms.model == Unique && t.memo.None? && t.key.chain == terms.chain && t.to == terms.depositAddress
    requires t.confirmations >= quote.needed
    ensures var ev := Present(t, quote, terms.expiresAt, ToInvoice(id, ByAddress, true));
            Enabled(w, ev) && Apply(cfg, w, ev).payments == [NewPayment(t, id, None, quote, terms.expiresAt)]
  {
    var target := ToInvoice(id, ByAddress, true);
    assert id in w.invoices;
    assert InvoicesAt(w, t.key.chain, t.to) == {id};
    assert TargetBy(w, t, terms.expiresAt, terms.expiresAt, id, target);
    assert Matches(w, t, terms.expiresAt, terms.expiresAt, target);
  }

  lemma OneReversed(p: PaymentRow, id: Id)
    ensures AmountPaid([p.(reversed := true)], id) == 0
    ensures AmountPaid([p], id) == if p.invoiceId == id && !p.reversed then Counted(p) else 0
  {
    assert [p.(reversed := true)][..0] == [] && [p][..0] == [];
  }

  lemma LastReversal(cfg: Config, w: World, p: PaymentRow)
    requires Inv(cfg, w) && w.payments == [p] && !p.reversed && Counted(p) > 0
    ensures var after := Reverse(cfg, w, p.key);
            p.invoiceId in after.invoices && after.invoices[p.invoiceId].status == Status.Pending
  {
    assert PlaceOf(w.payments, p.key) == 0;
    assert Agrees(w.payments, p.invoiceId, w.invoices[p.invoiceId]);
    assert w.payments[0 := p.(reversed := true)] == [p.(reversed := true)];
    OneReversed(p, p.invoiceId);
    ReversalReopens(cfg, w, p.key);
  }

  lemma RunOfTwo(cfg: Config, w: World, a: Event, b: Event)
    ensures Run(cfg, w, [a, b]) == Apply(cfg, Apply(cfg, w, a), b)
  {
    assert [a, b][..1] == [a] && [a][..0] == [];
    assert Run(cfg, w, []) == w;
    assert Run(cfg, w, [a]) == Apply(cfg, w, a);
  }

  lemma IssuedThenExpired(cfg: Config, id: Id, terms: Terms)
    ensures Run(cfg, EMPTY, [Issue(id, terms), Expiry(terms.expiresAt, {id})])
         == World(map[id := Invoice(terms, 0, Expired, false, false)], [], map[], [])
  {
    RunOfTwo(cfg, EMPTY, Issue(id, terms), Expiry(terms.expiresAt, {id}));
    var issued := Apply(cfg, EMPTY, Issue(id, terms));
    assert issued == World(map[id := Invoice(terms, 0, Status.Pending, false, true)], [], map[], []);
    assert Enabled(issued, Expiry(terms.expiresAt, {id}));
  }

  /** An invoice that has expired, is paid in full a moment late, and loses the payment, is pending. */
  lemma ExpiryIsNotAbsorbing(cfg: Config, id: Id, terms: Terms, t: Transfer, quote: Quote)
    requires terms.model == Unique && t.memo.None? && t.key.chain == terms.chain && t.to == terms.depositAddress
    requires t.amount == terms.amountDue > 0 && t.confirmations >= quote.needed
    ensures var expired := Run(cfg, EMPTY, [Issue(id, terms), Expiry(terms.expiresAt, {id})]);
            var late := Present(t, quote, terms.expiresAt, ToInvoice(id, ByAddress, true));
            && id in expired.invoices && expired.invoices[id].status == Expired
            && var reopened := Run(cfg, expired, [late, Reversal(t.key)]);
            && id in reopened.invoices && reopened.invoices[id].status == Status.Pending
  {
    var events := [Issue(id, terms), Expiry(terms.expiresAt, {id})];
    var late := Present(t, quote, terms.expiresAt, ToInvoice(id, ByAddress, true));
    IssuedThenExpired(cfg, id, terms);
    EmptyTables(cfg);
    RunKeepsInv(cfg, EMPTY, events);
    Reopens(cfg, id, terms, Run(cfg, EMPTY, events), t, quote);
  }

  lemma Reopens(cfg: Config, id: Id, terms: Terms, w: World, t: Transfer, quote: Quote)
    requires Inv(cfg, w) && w == World(map[id := Invoice(terms, 0, Expired, false, false)], [], map[], [])
    requires terms.model == Unique && t.memo.None? && t.key.chain == terms.chain && t.to == terms.depositAddress
    requires t.amount > 0 && t.confirmations >= quote.needed
    ensures var late := Present(t, quote, terms.expiresAt, ToInvoice(id, ByAddress, true));
            var reopened := Run(cfg, w, [late, Reversal(t.key)]);
            id in reopened.invoices && reopened.invoices[id].status == Status.Pending
  {
    var late := Present(t, quote, terms.expiresAt, ToInvoice(id, ByAddress, true));
    RunOfTwo(cfg, w, late, Reversal(t.key));
    LatePayment(cfg, id, terms, w, t, quote);
    StepKeepsInv(cfg, w, late);
    LastReversal(cfg, Apply(cfg, w, late), NewPayment(t, id, None, quote, terms.expiresAt));
  }
}
