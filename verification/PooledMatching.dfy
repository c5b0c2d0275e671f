/**
 Whose payment is a transfer to a shared wallet? The rules of
 apps/api/src/domain/pooled-matching.ts, in the order they are trusted, and what follows from
 them: the decision depends on the invoices and payments and not on their order, invoices issued
 after the transfer never matter, an exact amount reaches its own invoice, and a parked transfer
 becomes decidable when one invoice survives.
 */
module PooledMatching {
  import opened DecimalPowers
  import opened Options

  type Id = string
  type Time = int

  /** Amounts are compared at 36 decimals, and no token has more. */
  type Decimals = n: nat | n <= 36

  datatype Status = Pending | Confirming | Paid | Underpaid | Overpaid | Expired

  datatype CandidateInvoice = CandidateInvoice(
    id: Id, amountDue: nat, decimals: Decimals, assetKey: string,
    status: Status, expiresAt: Time, createdAt: Time)

  datatype ObservedTransfer = ObservedTransfer(
    amount: nat, decimals: Decimals, assetKey: string, from: Option<string>, seenAt: Time)

  datatype PriorPayment = PriorPayment(invoiceId: Id, from: Option<string>, creditedAt: Time)

  datatype MatchRule = ExactAmount | ExactAmountLate | SameSender | SoleOpen

  /** Why a transfer is parked; the rules themselves only ever give the last two reasons. */
  datatype UnmatchedReason = NoMatchingAddress | WrongAsset | InvoiceExpired | Ambiguous

  datatype MatchDecision =
    | Credit(invoiceId: Id, rule: MatchRule, sameAsset: bool)
    | Park(reason: UnmatchedReason)

  const LATE_PAYMENT_GRACE_MS: int := 24 * 60 * 60 * 1000

  /** An amount as the number a person reads, at the common scale. */
  function HumanAmount(amount: nat, decimals: Decimals): nat {
    amount * Pow10(36 - decimals)
  }

  predicate SameHumanAmount(t: ObservedTransfer, c: CandidateInvoice) {
    HumanAmount(t.amount, t.decimals) == HumanAmount(c.amountDue, c.decimals)
  }

  predicate IsOpen(c: CandidateInvoice, now: Time) {
    c.status in {Pending, Confirming} && c.expiresAt > now
  }

  /** An invoice with this status may still be waiting for the rest of its money. */
  predicate Toppable(status: Status) {
    status in {Pending, Confirming, Underpaid}
  }

  /** The invoice existed when the transfer was seen. */
  predicate Eligible(t: ObservedTransfer, c: CandidateInvoice) {
    c.createdAt <= t.seenAt
  }

  predicate Exact(t: ObservedTransfer, now: Time, c: CandidateInvoice) {
    SameHumanAmount(t, c) && (IsOpen(c, now) || c.expiresAt > now - LATE_PAYMENT_GRACE_MS)
  }

  // ── The decision, as the code makes it ─────────────────────────────────────

  /** What the rules select candidates by. */
  datatype Test = EligibleTest | ExactTest | OpenTest

  predicate Passes(test: Test, t: ObservedTransfer, now: Time, c: CandidateInvoice) {
    match test
    case EligibleTest => Eligible(t, c)
    case ExactTest => Exact(t, now, c)
    case OpenTest => IsOpen(c, now)
  }

  function Filter(test: Test, t: ObservedTransfer, now: Time, s: seq<CandidateInvoice>): seq<CandidateInvoice> {
    if s == [] then []
    else (if Passes(test, t, now, s[0]) then [s[0]] else []) + Filter(test, t, now, s[1..])
  }

  function Find(candidates: seq<CandidateInvoice>, id: Id): Option<CandidateInvoice> {
    if candidates == [] then None
    else if candidates[0].id == id then Some(candidates[0])
    else Find(candidates[1..], id)
  }

  /** A prior payment shows that its invoice is one the sender is still completing. */
  predicate Shows(t: ObservedTransfer, now: Time, candidates: seq<CandidateInvoice>, p: PriorPayment) {
    && t.from.Some? && p.from == t.from && p.creditedAt >= now - LATE_PAYMENT_GRACE_MS
    && var invoice := Find(candidates, p.invoiceId); invoice.Some? && Toppable(invoice.value.status)
  }

  /** The invoices the sender is known to be completing. */
  function KnownInvoices(t: ObservedTransfer, now: Time, candidates: seq<CandidateInvoice>,
      priors: seq<PriorPayment>): set<Id> {
    if priors == [] then {} else
      (if Shows(t, now, candidates, priors[0]) then {priors[0].invoiceId} else {})
      + KnownInvoices(t, now, candidates, priors[1..])
  }

  function CreditTo(t: ObservedTransfer, c: CandidateInvoice, rule: MatchRule): MatchDecision {
    Credit(c.id, rule, c.assetKey == t.assetKey)
  }

  /** Rules 2 to 4: the sender, the only open invoice, or nobody's to decide. */
  function DecideInexact(t: ObservedTransfer, now: Time, candidates: seq<CandidateInvoice>,
      priors: seq<PriorPayment>): MatchDecision {
    var known := KnownInvoices(t, now, candidates, priors);
    var open := Filter(OpenTest, t, now, candidates);
    if |known| == 1 then
      var invoice := Find(candidates, TheOnly(known));
      if invoice.Some? then CreditTo(t, invoice.value, SameSender) else Park(Ambiguous)
    else if |known| > 1 then Park(Ambiguous)
    else if open == [] then Park(InvoiceExpired)
    else if |open| == 1 then CreditTo(t, open[0], SoleOpen)
    else Park(Ambiguous)
  }

  function DecidePooled(t: ObservedTransfer, now: Time, all: seq<CandidateInvoice>,
      priors: seq<PriorPayment>): MatchDecision {
    var candidates := Filter(EligibleTest, t, now, all);
    var exact := Filter(ExactTest, t, now, candidates);
    if |exact| == 1 then
      CreditTo(t, exact[0], if IsOpen(exact[0], now) then ExactAmount else ExactAmountLate)
    else if |exact| > 1 then
      var open := Filter(OpenTest, t, now, exact);
      if |open| == 1 then CreditTo(t, open[0], ExactAmount) else Park(Ambiguous)
    else DecideInexact(t, now, candidates, priors)
  }

  /** The element of a set that has just one. */
  function TheOnly<T(==)>(s: set<T>): (x: T)
    requires |s| == 1
    ensures s == {x}
  {
    OneElement(s);
    var x :| x in s;
    x
  }

  lemma OneElement<T>(s: set<T>)
    requires |s| == 1
    ensures exists x :: x in s && s == {x}
    ensures forall x, y :: x in s && y in s ==> x == y
  {
    var x :| x in s;
    assert |s - {x}| == 0;
    assert s == {x};
  }

  // ── The decision, without an order ─────────────────────────────────────────

  function ExactOnes(t: ObservedTransfer, now: Time, all: set<CandidateInvoice>): set<CandidateInvoice> {
    set c | c in all && Eligible(t, c) && Exact(t, now, c)
  }

  function OpenOnes(t: ObservedTransfer, now: Time, all: set<CandidateInvoice>): set<CandidateInvoice> {
    set c | c in all && Eligible(t, c) && IsOpen(c, now)
  }

  /** The invoices this sender paid part of within the day, and that are still short. */
  function Completing(t: ObservedTransfer, now: Time, all: set<CandidateInvoice>,
      priors: set<PriorPayment>): set<CandidateInvoice> {
    set c | c in all && Eligible(t, c) && Toppable(c.status) && PaidBy(t, now, priors, c.id)
  }

  predicate PaidBy(t: ObservedTransfer, now: Time, priors: set<PriorPayment>, id: Id) {
    t.from.Some? && exists p :: p in priors && p.invoiceId == id && p.from == t.from
                                && p.creditedAt >= now - LATE_PAYMENT_GRACE_MS
  }

  /** The rules over sets of invoices and payments. */
  function Decide(t: ObservedTransfer, now: Time, all: set<CandidateInvoice>,
      priors: set<PriorPayment>): MatchDecision {
    var exact, open := ExactOnes(t, now, all), OpenOnes(t, now, all);
    var completing := Completing(t, now, all, priors);
    if |exact| == 1 then
      var c := TheOnly(exact);
      CreditTo(t, c, if c in open then ExactAmount else ExactAmountLate)
    else if |exact| > 1 then
      if |exact * open| == 1 then CreditTo(t, TheOnly(exact * open), ExactAmount) else Park(Ambiguous)
    else if |completing| == 1 then CreditTo(t, TheOnly(completing), SameSender)
    else if |completing| > 1 then Park(Ambiguous)
    else if open == {} then Park(InvoiceExpired)
    else if |open| == 1 then CreditTo(t, TheOnly(open), SoleOpen)
    else Park(Ambiguous)
  }

  function Elements<T(==)>(s: seq<T>): set<T> {
    set x | x in s
  }

  ghost predicate DistinctIds(all: seq<CandidateInvoice>) {
    forall i, j :: 0 <= i < j < |all| ==> all[i].id != all[j].id
  }

  /** No two invoices of a set share an id. */
  ghost predicate IdsIdentify(all: set<CandidateInvoice>) {
    forall c, d :: c in all && d in all && c.id == d.id ==> c == d
  }

  lemma {:induction false} DistinctSize(s: seq<CandidateInvoice>)
    requires DistinctIds(s)
    ensures |Elements(s)| == |s| && IdsIdentify(Elements(s))
  {
    if s != [] {
      DistinctSize(s[1..]);
      assert s == [s[0]] + s[1..];
      assert Elements(s) == {s[0]} + Elements(s[1..]);
      assert s[0] !in s[1..];
    }
  }

  lemma {:induction false} FilterMembers(test: Test, t: ObservedTransfer, now: Time, s: seq<CandidateInvoice>)
    ensures forall c :: c in Filter(test, t, now, s) <==> c in s && Passes(test, t, now, c)
  {
    if s != [] {
      FilterMembers(test, t, now, s[1..]);
      assert s == [s[0]] + s[1..];
    }
  }

  lemma {:induction false} FilterDistinct(test: Test, t: ObservedTransfer, now: Time, s: seq<CandidateInvoice>)
    requires DistinctIds(s)
    ensures DistinctIds(Filter(test, t, now, s))
  {
    if s != [] {
      var rest := Filter(test, t, now, s[1..]);
      FilterDistinct(test, t, now, s[1..]);
      FilterMembers(test, t, now, s[1..]);
      forall c | c in rest ensures c.id != s[0].id {
        var i :| 0 <= i < |s[1..]| && s[1..][i] == c;
        assert s[i + 1] == c;
      }
    }
  }

  /** A sequence names every invoice of a set once. */
  ghost predicate Lists(s: seq<CandidateInvoice>, all: set<CandidateInvoice>) {
    DistinctIds(s) && Elements(s) == all && |s| == |all|
  }

  ghost function Passing(test: Test, t: ObservedTransfer, now: Time,
      all: set<CandidateInvoice>): set<CandidateInvoice> {
    set c | c in all && Passes(test, t, now, c)
  }

  lemma FilterLists(test: Test, t: ObservedTransfer, now: Time, s: seq<CandidateInvoice>, all: set<CandidateInvoice>)
    requires Lists(s, all)
    ensures Lists(Filter(test, t, now, s), Passing(test, t, now, all))
  {
    FilterMembers(test, t, now, s);
    FilterDistinct(test, t, now, s);
    DistinctSize(Filter(test, t, now, s));
    assert Elements(Filter(test, t, now, s)) == Passing(test, t, now, all);
  }

  lemma ListsOne(s: seq<CandidateInvoice>, all: set<CandidateInvoice>)
    requires Lists(s, all) && |s| == 1
    ensures s[0] == TheOnly(all)
  {
    assert s[0] in Elements(s);
  }

  lemma {:induction false} FindElement(s: seq<CandidateInvoice>, id: Id)
    requires DistinctIds(s)
    ensures forall c :: Find(s, id) == Some(c) <==> c in s && c.id == id
  {
    if s != [] {
      FindElement(s[1..], id);
      assert s == [s[0]] + s[1..];
    }
  }

  ghost predicate Known(t: ObservedTransfer, now: Time, candidates: seq<CandidateInvoice>, priors: seq<PriorPayment>,
      id: Id) {
    exists p :: p in priors && p.invoiceId == id && Shows(t, now, candidates, p)
  }

  lemma {:induction false} KnownMembers(t: ObservedTransfer, now: Time, candidates: seq<CandidateInvoice>,
      priors: seq<PriorPayment>)
    ensures forall id :: id in KnownInvoices(t, now, candidates, priors) <==> Known(t, now, candidates, priors, id)
  {
    if priors != [] {
      KnownMembers(t, now, candidates, priors[1..]);
      assert priors == [priors[0]] + priors[1..];
    }
  }

  function Ids(all: set<CandidateInvoice>): set<Id> {
    set c | c in all :: c.id
  }

  lemma {:induction false} IdsSize(all: set<CandidateInvoice>)
    requires IdsIdentify(all)
    ensures |Ids(all)| == |all|
    decreases |all|
  {
    if all != {} {
      var c :| c in all;
      var rest := all - {c};
      IdsSize(rest);
      assert all == rest + {c};
      assert Ids(all) == Ids(rest) + {c.id};
    }
  }

  lemma IdsOfOne(all: set<CandidateInvoice>)
    requires |all| == 1
    ensures TheOnly(all) in all && Ids(all) == {TheOnly(all).id}
  {
    var c := TheOnly(all);
    assert all == {c};
  }

  /** The sender's known invoices are the ids of those the sender is completing. */
  lemma KnownAreCompleting(t: ObservedTransfer, now: Time, all: seq<CandidateInvoice>, priors: seq<PriorPayment>)
    requires DistinctIds(all)
    ensures var candidates := Filter(EligibleTest, t, now, all);
            var completing := Completing(t, now, Elements(all), Elements(priors));
            && KnownInvoices(t, now, candidates, priors) == Ids(completing)
            && |Ids(completing)| == |completing|
            && forall c :: c in completing ==> Find(candidates, c.id) == Some(c)
  {
    var candidates := Filter(EligibleTest, t, now, all);
    var completing := Completing(t, now, Elements(all), Elements(priors));
    FilterMembers(EligibleTest, t, now, all);
    FilterDistinct(EligibleTest, t, now, all);
    KnownMembers(t, now, candidates, priors);
    DistinctSize(all);
    IdsSize(completing);
    forall c | c in completing ensures Find(candidates, c.id) == Some(c) {
      FindElement(candidates, c.id);
    }
    forall id ensures id in KnownInvoices(t, now, candidates, priors) <==> id in Ids(completing) {
      FindElement(candidates, id);
      KnownIffCompleting(t, now, all, priors, candidates, id);
    }
  }

  lemma KnownIffCompleting(t: ObservedTransfer, now: Time, all: seq<CandidateInvoice>, priors: seq<PriorPayment>,
                           candidates: seq<CandidateInvoice>, id: Id)
    requires forall c :: c in candidates <==> c in all && Eligible(t, c)
    requires forall c :: Find(candidates, id) == Some(c) <==> c in candidates && c.id == id
    ensures Known(t, now, candidates, priors, id) <==> id in Ids(Completing(t, now, Elements(all), Elements(priors)))
  {
    var completing := Completing(t, now, Elements(all), Elements(priors));
    if Known(t, now, candidates, priors, id) {
      var p :| p in priors && p.invoiceId == id && Shows(t, now, candidates, p);
      assert p in Elements(priors);
      assert Find(candidates, id).value in completing;
    }
    if id in Ids(completing) {
      var c :| c in completing && c.id == id;
      var p :| p in Elements(priors) && p.invoiceId == id && p.from == t.from
            && p.creditedAt >= now - LATE_PAYMENT_GRACE_MS;
      assert Find(candidates, id) == Some(c);
      assert Shows(t, now, candidates, p);
    }
  }

  /** The sequences the code filters list the sets the rules speak of. */
  lemma FiltersList(t: ObservedTransfer, now: Time, all: seq<CandidateInvoice>)
    requires DistinctIds(all)
    ensures var candidates := Filter(EligibleTest, t, now, all);
            var exact, open := ExactOnes(t, now, Elements(all)), OpenOnes(t, now, Elements(all));
            && Lists(Filter(ExactTest, t, now, candidates), exact)
            && Lists(Filter(OpenTest, t, now, candidates), open)
            && Lists(Filter(OpenTest, t, now, Filter(ExactTest, t, now, candidates)), exact * open)
  {
    var eligible := Passing(EligibleTest, t, now, Elements(all));
    var candidates := Filter(EligibleTest, t, now, all);
    DistinctSize(all);
    FilterLists(EligibleTest, t, now, all, Elements(all));
    FilterLists(ExactTest, t, now, candidates, eligible);
    FilterLists(OpenTest, t, now, candidates, eligible);
    FilterLists(OpenTest, t, now, Filter(ExactTest, t, now, candidates), Passing(ExactTest, t, now, eligible));
    var exact, open := ExactOnes(t, now, Elements(all)), OpenOnes(t, now, Elements(all));
    assert Passing(ExactTest, t, now, eligible) == exact;
    assert Passing(OpenTest, t, now, eligible) == open;
    assert Passing(OpenTest, t, now, exact) == exact * open;
  }

  /** Rules 2 to 4, over sequences and over sets. */
  lemma RestIsOrderFree(t: ObservedTransfer, now: Time, candidates: seq<CandidateInvoice>, priors: seq<PriorPayment>,
                        open: set<CandidateInvoice>, completing: set<CandidateInvoice>)
    requires Lists(Filter(OpenTest, t, now, candidates), open)
    requires KnownInvoices(t, now, candidates, priors) == Ids(completing) && |Ids(completing)| == |completing|
    requires forall c :: c in completing ==> Find(candidates, c.id) == Some(c)
    ensures DecideInexact(t, now, candidates, priors)
         == if |completing| == 1 then CreditTo(t, TheOnly(completing), SameSender)
            else if |completing| > 1 then Park(Ambiguous)
            else if open == {} then Park(InvoiceExpired)
            else if |open| == 1 then CreditTo(t, TheOnly(open), SoleOpen)
            else Park(Ambiguous)
  {
    if |completing| == 1 {
      IdsOfOne(completing);
    } else if |open| == 1 {
      ListsOne(Filter(OpenTest, t, now, candidates), open);
    }
  }

  /** The decision depends on the invoices and the payments, and not on the order they come in. */
  lemma DecisionIsOrderFree(t: ObservedTransfer, now: Time, all: seq<CandidateInvoice>, priors: seq<PriorPayment>)
    requires DistinctIds(all)
    ensures DecidePooled(t, now, all, priors) == Decide(t, now, Elements(all), Elements(priors))
  {
    var exact := Filter(ExactTest, t, now, Filter(EligibleTest, t, now, all));
    var open := Filter(OpenTest, t, now, exact);
    var exactSet, openSet := ExactOnes(t, now, Elements(all)), OpenOnes(t, now, Elements(all));
    FiltersList(t, now, all);
    if |exact| == 1 {
      ListsOne(exact, exactSet);
    } else if |exact| > 1 {
      if |open| == 1 { ListsOne(open, exactSet * openSet); }
    } else {
      KnownAreCompleting(t, now, all, priors);
      RestIsOrderFree(t, now, Filter(EligibleTest, t, now, all), priors,
                      openSet, Completing(t, now, Elements(all), Elements(priors)));
    }
  }

  lemma PermutationIndependent(t: ObservedTransfer, now: Time, all: seq<CandidateInvoice>, priors: seq<PriorPayment>,
                               all': seq<CandidateInvoice>, priors': seq<PriorPayment>)
    requires DistinctIds(all) && DistinctIds(all')
    requires multiset(all) == multiset(all') && multiset(priors) == multiset(priors')
    ensures DecidePooled(t, now, all, priors) == DecidePooled(t, now, all', priors')
  {
    DecisionIsOrderFree(t, now, all, priors);
    DecisionIsOrderFree(t, now, all', priors');
    assert forall c :: c in all <==> c in multiset(all);
    assert forall p :: p in priors <==> p in multiset(priors);
    assert Elements(all) == Elements(all') && Elements(priors) == Elements(priors');
  }

  // ── What the decision never depends on ─────────────────────────────────────

  /** Invoices issued after the transfer was seen, and payments to them, change nothing. */
  lemma NewcomersNeverMatter(t: ObservedTransfer, now: Time, all: seq<CandidateInvoice>, priors: seq<PriorPayment>,
                             newcomers: seq<CandidateInvoice>, later: seq<PriorPayment>)
    requires DistinctIds(all + newcomers)
    requires forall c :: c in newcomers ==> c.createdAt > t.seenAt
    requires forall p :: p in later ==> exists c :: c in newcomers && c.id == p.invoiceId
    ensures DecidePooled(t, now, all + newcomers, priors + later) == DecidePooled(t, now, all, priors)
  {
    var more, paid := all + newcomers, priors + later;
    assert DistinctIds(all) by {
      assert forall i :: 0 <= i < |all| ==> more[i] == all[i];
    }
    DecisionIsOrderFree(t, now, more, paid);
    DecisionIsOrderFree(t, now, all, priors);
    var a, b := Elements(more), Elements(all);
    assert ExactOnes(t, now, a) == ExactOnes(t, now, b);
    assert OpenOnes(t, now, a) == OpenOnes(t, now, b);
    forall c | c in b ensures PaidBy(t, now, Elements(paid), c.id) <==> PaidBy(t, now, Elements(priors), c.id) {
      forall p | p in later ensures p.invoiceId != c.id {
        NewcomerIdsAreNew(all, newcomers, c, p.invoiceId);
      }
    }
    assert Completing(t, now, a, Elements(paid)) == Completing(t, now, b, Elements(priors));
  }

  lemma NewcomerIdsAreNew(all: seq<CandidateInvoice>, newcomers: seq<CandidateInvoice>, c: CandidateInvoice, id: Id)
    requires DistinctIds(all + newcomers) && c in all
    requires exists d :: d in newcomers && d.id == id
    ensures id != c.id
  {
    var d :| d in newcomers && d.id == id;
    var i :| 0 <= i < |all| && all[i] == c;
    var j :| 0 <= j < |newcomers| && newcomers[j] == d;
    assert (all + newcomers)[i] == c && (all + newcomers)[|all| + j] == d;
  }

  // ── What the decision guarantees ───────────────────────────────────────────

  /**
   A credit always goes to an invoice that existed when the transfer was seen, and for a reason:
   the exact number, a payment by the same sender to an invoice still short, or no other open.
   */
  lemma CreditHasEvidence(t: ObservedTransfer, now: Time, all: set<CandidateInvoice>, priors: set<PriorPayment>)
    requires Decide(t, now, all, priors).Credit?
    ensures var d := Decide(t, now, all, priors);
            exists c :: c in all && c.id == d.invoiceId && c.createdAt <= t.seenAt
              && d.sameAsset == (c.assetKey == t.assetKey)
              && match d.rule
                 case ExactAmount => Exact(t, now, c) && IsOpen(c, now)
                 case ExactAmountLate => Exact(t, now, c) && !IsOpen(c, now)
                 case SameSender => Toppable(c.status) && PaidBy(t, now, priors, c.id)
                 case SoleOpen => OpenOnes(t, now, all) == {c}
  {
    var exact, open := ExactOnes(t, now, all), OpenOnes(t, now, all);
    var completing := Completing(t, now, all, priors);
    if |exact| == 1 {
      assert TheOnly(exact) in exact;
    } else if |exact| > 1 {
      assert TheOnly(exact * open) in exact * open;
    } else if |completing| == 1 {
      assert TheOnly(completing) in completing;
    } else {
      assert TheOnly(open) in open;
    }
  }

  /** Amounts compared at a common scale are the same number when their cross products are. */
  lemma SameAtScale(a: nat, d: nat, b: nat, e: nat, scale: nat)
    requires d <= scale && e <= scale
    ensures a * Pow10(scale - d) == b * Pow10(scale - e) <==> a * Pow10(e) == b * Pow10(d)
  {
    Pow10Sum(scale - d, d);
    Pow10Sum(scale - e, e);
    CrossScaled(a, b, Pow10(scale - d), Pow10(d), Pow10(scale - e), Pow10(e));
  }

  lemma SameValue(a: nat, d: Decimals, b: nat, e: Decimals)
    ensures HumanAmount(a, d) == HumanAmount(b, e) <==> a * Pow10(e) == b * Pow10(d)
  {
    SameAtScale(a, d, b, e, 36);
  }

  /** With p * q == r * s, a number at scale p is one at scale r as the cross-scaled ones are. */
  lemma CrossScaled(a: nat, b: nat, p: nat, q: nat, r: nat, s: nat)
    requires p > 0 && q > 0 && r > 0 && s > 0 && p * q == r * s
    ensures a * p == b * r <==> a * s == b * q
  {
    var m := p * q;
    assert a * p * (q * s) == m * (a * s) by { Regrouped(a, p, q, s); }
    assert b * r * (q * s) == m * (b * q) by { Regrouped(b, r, s, q); assert q * s == s * q; }
    Cancels(a * p, b * r, q * s);
    Cancels(a * s, b * q, m);
  }

  lemma Regrouped(a: nat, p: nat, q: nat, s: nat)
    ensures a * p * (q * s) == p * q * (a * s)
  {
    assert a * p * (q * s) == a * (p * q * s);
    assert p * q * (a * s) == a * (p * q * s);
  }

  lemma Cancels(x: nat, y: nat, m: nat)
    requires m > 0
    ensures x == y <==> x * m == y * m && m * x == m * y
  {
    if x < y { assert x * m < y * m; }
    if y < x { assert y * m < x * m; }
  }

  /**
   A transfer of the very amount of one invoice, in whatever decimals, reaches that invoice
   while it is open or closed for less than a day, whatever else is there.
   */
  lemma ExactAmountReachesItsInvoice(t: ObservedTransfer, now: Time, all: seq<CandidateInvoice>,
                                     priors: seq<PriorPayment>, c: CandidateInvoice)
    requires DistinctIds(all) && c in all && c.createdAt <= t.seenAt
    requires t.amount * Pow10(c.decimals) == c.amountDue * Pow10(t.decimals)
    requires now - c.expiresAt < 86_400_000 || (c.status in {Pending, Confirming} && now < c.expiresAt)
    requires forall d :: d in all && d != c ==>
               d.amountDue * Pow10(c.decimals) != c.amountDue * Pow10(d.decimals)
    ensures var open := c.status in {Pending, Confirming} && now < c.expiresAt;
            var rule := if open then ExactAmount else ExactAmountLate;
            DecidePooled(t, now, all, priors) == Credit(c.id, rule, c.assetKey == t.assetKey)
  {
    DecisionIsOrderFree(t, now, all, priors);
    SameValue(t.amount, t.decimals, c.amountDue, c.decimals);
    forall d | d in all && d != c ensures !SameHumanAmount(t, d) {
      SameValue(d.amountDue, d.decimals, c.amountDue, c.decimals);
    }
    assert ExactOnes(t, now, Elements(all)) == {c};
  }

  // ── Parked transfers become decidable ──────────────────────────────────────

  /** The transfer matched nothing: no exact amount, no known sender, and several invoices open. */
  ghost predicate Stray(t: ObservedTransfer, now: Time, all: set<CandidateInvoice>, priors: set<PriorPayment>) {
    && ExactOnes(t, now, all) == {} && Completing(t, now, all, priors) == {}
    && |OpenOnes(t, now, all)| >= 2
  }

  /** With no exact amount and no known sender, such transfers are parked as ambiguous and no others are. */
  lemma StraysAreParked(t: ObservedTransfer, now: Time, all: set<CandidateInvoice>, priors: set<PriorPayment>)
    requires ExactOnes(t, now, all) == {} && Completing(t, now, all, priors) == {}
    ensures Decide(t, now, all, priors) == Park(Ambiguous) <==> Stray(t, now, all, priors)
  {
    assert |OpenOnes(t, now, all)| == 0 <==> OpenOnes(t, now, all) == {};
  }

  /** What never changes about an invoice. */
  predicate SameTerms(c: CandidateInvoice, d: CandidateInvoice) {
    && c.id == d.id && c.amountDue == d.amountDue && c.decimals == d.decimals && c.assetKey == d.assetKey
    && c.expiresAt == d.expiresAt && c.createdAt == d.createdAt
  }

  /**
   The candidates at a later time: the earlier ones with new statuses, newcomers, and invoices
   that had been closed for over a day and are pending again after a reversal.
   */
  ghost predicate Later(t: ObservedTransfer, now: Time, before: set<CandidateInvoice>, after: set<CandidateInvoice>) {
    forall c :: c in after && Eligible(t, c) ==> WasThere(c, before) || c.expiresAt <= now - LATE_PAYMENT_GRACE_MS
  }

  ghost predicate WasThere(c: CandidateInvoice, before: set<CandidateInvoice>) {
    exists d :: d in before && SameTerms(c, d)
  }

  lemma ExactOnesStayAway(t: ObservedTransfer, now: Time, later: Time,
                          before: set<CandidateInvoice>, after: set<CandidateInvoice>)
    requires now <= later && Later(t, now, before, after) && ExactOnes(t, now, before) == {}
    ensures ExactOnes(t, later, after) == {}
  {
    forall c | c in after && Eligible(t, c) ensures !Exact(t, later, c) {
      if WasThere(c, before) {
        var d :| d in before && SameTerms(c, d);
        assert d !in ExactOnes(t, now, before);
      }
    }
  }

  /**
   A stray goes to the one invoice still open later, as the only candidate, exactly when its
   sender is not by then completing some invoice.
   */
  lemma SurvivorGetsTheStray(t: ObservedTransfer, now: Time, later: Time,
                             before: set<CandidateInvoice>, paidBefore: set<PriorPayment>,
                             after: set<CandidateInvoice>, paidAfter: set<PriorPayment>, survivor: CandidateInvoice)
    requires Stray(t, now, before, paidBefore) && now <= later && Later(t, now, before, after)
    requires OpenOnes(t, later, after) == {survivor}
    ensures Decide(t, later, after, paidAfter) == CreditTo(t, survivor, SoleOpen)
       <==> Completing(t, later, after, paidAfter) == {}
  {
    ExactOnesStayAway(t, now, later, before, after);
    var completing := Completing(t, later, after, paidAfter);
    assert |completing| == 0 <==> completing == {};
  }

  /** The sender made no new payment, and no invoice is short that was not. */
  ghost predicate NoNewEvidence(t: ObservedTransfer, before: set<CandidateInvoice>, paidBefore: set<PriorPayment>,
                                after: set<CandidateInvoice>, paidAfter: set<PriorPayment>) {
    && (forall p :: p in paidAfter && p.from == t.from ==> p in paidBefore)
    && (forall c :: c in after && Eligible(t, c) && Toppable(c.status) ==> WasShort(c, before))
  }

  ghost predicate WasShort(c: CandidateInvoice, before: set<CandidateInvoice>) {
    exists d :: d in before && SameTerms(c, d) && Toppable(d.status)
  }

  lemma CompletingIsNotNew(t: ObservedTransfer, now: Time, later: Time,
                           before: set<CandidateInvoice>, paidBefore: set<PriorPayment>,
                           after: set<CandidateInvoice>, paidAfter: set<PriorPayment>, c: CandidateInvoice)
    requires now <= later && c in Completing(t, later, after, paidAfter)
    requires NoNewEvidence(t, before, paidBefore, after, paidAfter)
    ensures exists d :: d in Completing(t, now, before, paidBefore)
  {
    var d :| d in before && SameTerms(c, d) && Toppable(d.status);
    var p :| p in paidAfter && p.invoiceId == c.id && p.from == t.from
          && p.creditedAt >= later - LATE_PAYMENT_GRACE_MS;
    assert PaidBy(t, now, paidBefore, d.id);
    assert d in Completing(t, now, before, paidBefore);
  }

  lemma SurvivorGetsTheQuietStray(t: ObservedTransfer, now: Time, later: Time,
                                  before: set<CandidateInvoice>, paidBefore: set<PriorPayment>,
                                  after: set<CandidateInvoice>, paidAfter: set<PriorPayment>,
                                  survivor: CandidateInvoice)
    requires Stray(t, now, before, paidBefore) && now <= later && Later(t, now, before, after)
    requires OpenOnes(t, later, after) == {survivor}
    requires NoNewEvidence(t, before, paidBefore, after, paidAfter)
    ensures Decide(t, later, after, paidAfter) == CreditTo(t, survivor, SoleOpen)
  {
    SurvivorGetsTheStray(t, now, later, before, paidBefore, after, paidAfter, survivor);
    if c :| c in Completing(t, later, after, paidAfter) {
      CompletingIsNotNew(t, now, later, before, paidBefore, after, paidAfter, c);
      assert false;
    }
  }

  /**
   Without a new payment the stray can still go elsewhere: an invoice the sender had settled is
   short again once a reversal took part of the money back.
   */
  lemma ReversalDivertsTheStray()
    returns (t: ObservedTransfer, before: set<CandidateInvoice>, after: set<CandidateInvoice>,
             priors: set<PriorPayment>, survivor: CandidateInvoice, settled: CandidateInvoice)
    ensures Stray(t, 0, before, priors) && Later(t, 0, before, after)
    ensures OpenOnes(t, 0, after) == {survivor}
    ensures Decide(t, 0, after, priors) == CreditTo(t, settled, SameSender) && settled.id != survivor.id
  {
    t := ObservedTransfer(5, 36, "usdt", Some("payer"), 0);
    survivor := CandidateInvoice("b", 20, 36, "usdt", Pending, 10, 0);
    var other := CandidateInvoice("c", 30, 36, "usdt", Pending, 10, 0);
    var paid := CandidateInvoice("a", 10, 36, "usdt", Paid, 10, 0);
    settled := paid.(status := Underpaid);
    before := {survivor, other, paid};
    after := {survivor, other.(status := Paid), settled};
    priors := {PriorPayment("a", Some("payer"), 0)};
    assert OpenOnes(t, 0, before) == {survivor, other};
    assert survivor.id != other.id;
    assert ExactOnes(t, 0, before) == {} && Completing(t, 0, before, priors) == {};
    assert SameTerms(other.(status := Paid), other) && SameTerms(settled, paid) && SameTerms(survivor, survivor);
    assert ExactOnes(t, 0, after) == {};
    assert PaidBy(t, 0, priors, "a");
    assert Completing(t, 0, after, priors) == {settled};
  }
}
