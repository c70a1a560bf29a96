/** Credit-package payments: creation, webhook and reconcile settlement, polling settlement, cancellation.
    One payment row per attempt; the row's index stands for its id. */
module Purchases {
  import opened Common
  import opened Ledger
  import opened Billing

  type User = nat

  datatype Status = Pending | Succeeded | Canceled

  /** `hasId` is whether yookassa_payment_id is stored; `creating` whether the request that made the row is still running. */
  datatype Paid = Paid(user: User, credits: nat, status: Status, refunded: bool, hasId: bool, creating: bool)

  /** `polls` are the payments that some polling request has read as pending with a provider id; what it read may be stale. */
  datatype Shop = Shop(accounts: map<User, Account>, payments: seq<Paid>, polls: set<nat>)

  /** What YooKassa authoritatively says about a payment when it is re-fetched. */
  datatype Verdict = SaysCanceled | SaysSucceeded(matches: bool) | SaysOther

  datatype Event =
    | Create(user: User, credits: nat)       // create_payment commits the pending row
    | CreateDone(payment: nat)               // it stores the provider's id
    | CreateFailed(payment: nat)             // or its failure branch writes `canceled` without reading the row again
    | PollReads(payment: nat)                // _settle_from_yookassa passes its guard
    | Apply(payment: nat)                    // and later calls apply_purchase
    | Cancel(payment: nat)                   // or mark_payment_canceled
    | Settle(payment: nat, verdict: Verdict) // _settle_payment, from the webhook task or the reconcile sweep
    | Refund(payment: nat)
    | OnAccount(user: User, step: Step)      // any other committed transaction on an account

  /** get_or_create_account: an existing row is left alone. */
  function Opened(accounts: map<User, Account>, user: User): map<User, Account> {
    if user in accounts then accounts else accounts[user := NewAccount()]
  }

  function Credited(s: Shop, i: nat): Shop
    requires i < |s.payments|
  {
    var p := s.payments[i];
    var accounts := Opened(s.accounts, p.user);
    s.(accounts := accounts[p.user := PurchaseCredits(accounts[p.user], p.credits, i)],
       payments := s.payments[i := p.(status := Succeeded, hasId := true)])
  }

  function ApplyPurchase(s: Shop, i: nat): Shop {
    if i >= |s.payments| then s
    else if s.payments[i].status.Succeeded? then s.(accounts := Opened(s.accounts, s.payments[i].user))
    else Credited(s, i)
  }

  function MarkCanceled(s: Shop, i: nat): Shop {
    if i >= |s.payments| || !s.payments[i].status.Pending? then s
    else s.(payments := s.payments[i := s.payments[i].(status := Canceled)])
  }

  function SettlePayment(s: Shop, i: nat, verdict: Verdict): Shop {
    if i >= |s.payments| || !s.payments[i].status.Pending? then s
    else
      match verdict
      case SaysCanceled => MarkCanceled(s, i)
      case SaysSucceeded(matches) => if matches then Credited(s, i) else s
      case SaysOther => s
  }

  function Updated(s: Shop, i: nat, p: Paid): Shop
    requires i < |s.payments|
  {
    s.(payments := s.payments[i := p])
  }

  function After(s: Shop, e: Event): Shop {
    match e
    case Create(user, credits) => s.(payments := s.payments + [Paid(user, credits, Pending, false, false, true)])
    case CreateDone(i) =>
      if i < |s.payments| && s.payments[i].creating then Updated(s, i, s.payments[i].(hasId := true, creating := false)) else s
    case CreateFailed(i) =>
      if i < |s.payments| && s.payments[i].creating then Updated(s, i, s.payments[i].(status := Canceled, creating := false)) else s
    case PollReads(i) =>
      if i < |s.payments| && s.payments[i].status.Pending? && s.payments[i].hasId then s.(polls := s.polls + {i}) else s
    case Apply(i) => if i in s.polls then ApplyPurchase(s, i) else s
    case Cancel(i) => if i in s.polls then MarkCanceled(s, i) else s
    case Settle(i, verdict) => SettlePayment(s, i, verdict)
    case Refund(i) => if i < |s.payments| then Updated(s, i, s.payments[i].(refunded := true)) else s
    case OnAccount(user, step) => if user in s.accounts then s.(accounts := s.accounts[user := Next(s.accounts[user], step)]) else s
  }

  const Closed := Shop(map[], [], {})

  function Play(s: Shop, events: seq<Event>): Shop {
    if events == [] then s else After(Play(s, events[..|events| - 1]), events[|events| - 1])
  }

  function PurchaseOf(payment: nat): Row -> int {
    (row: Row) => if row.op.Purchase? && row.ref == Some(Payment(payment)) then 1 else 0
  }

  function PurchaseDelta(row: Row): int {
    if row.op.Purchase? then row.delta else 0
  }

  /** PURCHASE rows for payment `i` in the ledger of one user. */
  function PurchaseRows(s: Shop, user: User, i: nat): int {
    if user in s.accounts then Total(s.accounts[user].ledger, PurchaseOf(i)) else 0
  }

  function Purchased(s: Shop, user: User): int {
    if user in s.accounts then Total(s.accounts[user].ledger, PurchaseDelta) else 0
  }

  function Worth(p: Paid, user: User): nat {
    if p.status.Succeeded? && p.user == user then p.credits else 0
  }

  function SucceededCredits(payments: seq<Paid>, user: User): nat {
    if payments == [] then 0
    else SucceededCredits(payments[..|payments| - 1], user) + Worth(payments[|payments| - 1], user)
  }

  function PaidOnce(s: Shop, user: User, i: nat): bool {
    i < |s.payments| && s.payments[i].status.Succeeded? && s.payments[i].user == user
  }

  /** One PURCHASE row per succeeded payment, in its buyer's ledger only, and purchased credits add up. */
  ghost predicate Booked(s: Shop) {
    && (forall user, i :: PurchaseRows(s, user, i) == if PaidOnce(s, user, i) then 1 else 0)
    && (forall user :: Purchased(s, user) == SucceededCredits(s.payments, user))
  }

  /** Purchase rows are written by payments only. */
  predicate Genuine(e: Event) {
    e.OnAccount? ==> !e.step.Purchasing?
  }

  predicate AllGenuine(events: seq<Event>) {
    forall i :: 0 <= i < |events| ==> Genuine(events[i])
  }

  /** The failure branch of a creation hits a payment that a webhook has settled meanwhile. */
  predicate Overwrites(s: Shop, e: Event) {
    e.CreateFailed? && e.payment < |s.payments| && s.payments[e.payment].creating && s.payments[e.payment].status.Succeeded?
  }

  predicate NeverOverwrites(s: Shop, events: seq<Event>) {
    events == [] ||
    (NeverOverwrites(s, events[..|events| - 1]) && !Overwrites(Play(s, events[..|events| - 1]), events[|events| - 1]))
  }

  lemma SucceededUpdate(payments: seq<Paid>, i: nat, p: Paid, user: User)
    requires i < |payments|
    ensures SucceededCredits(payments[i := p], user) == SucceededCredits(payments, user) - Worth(payments[i], user) + Worth(p, user)
  {
    var n := |payments| - 1;
    if i < n {
      SucceededUpdate(payments[..n], i, p, user);
      assert payments[i := p][..n] == payments[..n][i := p];
    } else {
      assert payments[i := p][..n] == payments[..n];
    }
  }

  lemma StatusUpdate(s: Shop, i: nat, p: Paid)
    requires Booked(s) && i < |s.payments|
    requires p.user == s.payments[i].user && p.credits == s.payments[i].credits
    requires p.status.Succeeded? <==> s.payments[i].status.Succeeded?
    ensures Booked(s.(payments := s.payments[i := p]))
  {
    var t := s.(payments := s.payments[i := p]);
    forall user ensures Purchased(t, user) == SucceededCredits(t.payments, user) {
      SucceededUpdate(s.payments, i, p, user);
    }
    forall user, j ensures PurchaseRows(t, user, j) == if PaidOnce(t, user, j) then 1 else 0 {
      assert PurchaseRows(t, user, j) == PurchaseRows(s, user, j);
    }
  }

  lemma OpeningKeepsBooked(s: Shop, user: User)
    requires Booked(s)
    ensures Booked(s.(accounts := Opened(s.accounts, user)))
  {
    var t := s.(accounts := Opened(s.accounts, user));
    forall u ensures Purchased(t, u) == Purchased(s, u) {
    }
    forall u, j ensures PurchaseRows(t, u, j) == PurchaseRows(s, u, j) {
    }
  }

  lemma CreditingDelta(s: Shop, i: nat, u: User)
    requires i < |s.payments|
    ensures Purchased(Credited(s, i), u) == Purchased(s, u) + (if u == s.payments[i].user then s.payments[i].credits else 0)
  {
    var p := s.payments[i];
    var accounts := Opened(s.accounts, p.user);
    TotalAppend(accounts[p.user].ledger, Row(Purchase, p.credits, Some(Payment(i))), PurchaseDelta);
  }

  lemma CreditingKeepsBooked(s: Shop, i: nat)
    requires Booked(s) && i < |s.payments| && !s.payments[i].status.Succeeded?
    ensures Booked(Credited(s, i))
  {
    var p, t := s.payments[i], Credited(s, i);
    forall user ensures Purchased(t, user) == SucceededCredits(t.payments, user) {
      SucceededUpdate(s.payments, i, p.(status := Succeeded, hasId := true), user);
      CreditingDelta(s, i, user);
    }
    forall user, j ensures PurchaseRows(t, user, j) == if PaidOnce(t, user, j) then 1 else 0 {
      assert PurchaseRows(s, user, j) == if PaidOnce(s, user, j) then 1 else 0;
      CreditingRows(s, i, user, j);
    }
  }

  lemma AccountStepKeepsDelta(s: Shop, user: User, step: Step, u: User)
    requires user in s.accounts && !step.Purchasing?
    ensures Purchased(s.(accounts := s.accounts[user := Next(s.accounts[user], step)]), u) == Purchased(s, u)
  {
    NoPurchaseRows(s.accounts[user], step);
    GrownTotal(s.accounts[user].ledger, Next(s.accounts[user], step).ledger, NotPurchase, PurchaseDelta);
  }

  lemma AccountStepKeepsBooked(s: Shop, user: User, step: Step)
    requires Booked(s) && user in s.accounts && !step.Purchasing?
    ensures Booked(s.(accounts := s.accounts[user := Next(s.accounts[user], step)]))
  {
    var t := s.(accounts := s.accounts[user := Next(s.accounts[user], step)]);
    forall u ensures Purchased(t, u) == SucceededCredits(t.payments, u) {
      AccountStepKeepsDelta(s, user, step, u);
    }
    forall u, j ensures PurchaseRows(t, u, j) == if PaidOnce(t, u, j) then 1 else 0 {
      assert PurchaseRows(s, u, j) == if PaidOnce(s, u, j) then 1 else 0;
      AccountStepKeepsRows(s, user, step, u, j);
    }
  }

  lemma CreatingKeepsBooked(s: Shop, user: User, credits: nat)
    requires Booked(s)
    ensures Booked(After(s, Create(user, credits)))
  {
    var t := After(s, Create(user, credits));
    assert t.payments[..|s.payments|] == s.payments;
    forall u, j ensures PurchaseRows(t, u, j) == if PaidOnce(t, u, j) then 1 else 0 {
      assert PurchaseRows(t, u, j) == PurchaseRows(s, u, j);
    }
    forall u ensures Purchased(t, u) == SucceededCredits(t.payments, u) {
      assert Purchased(t, u) == Purchased(s, u);
    }
  }

  lemma ReadKeepsBooked(s: Shop, t: Shop)
    requires Booked(s) && t.accounts == s.accounts && t.payments == s.payments
    ensures Booked(t)
  {
    forall user, j ensures PurchaseRows(t, user, j) == if PaidOnce(t, user, j) then 1 else 0 {
      assert PurchaseRows(t, user, j) == PurchaseRows(s, user, j);
    }
    forall user ensures Purchased(t, user) == SucceededCredits(t.payments, user) {
      assert Purchased(t, user) == Purchased(s, user);
    }
  }

  lemma PaymentEventKeepsBooked(s: Shop, e: Event)
    requires Booked(s) && !e.Create? && !e.OnAccount? && !Overwrites(s, e)
    ensures Booked(After(s, e))
  {
    var i := e.payment;
    if e.PollReads? {
      ReadKeepsBooked(s, After(s, e));
    } else if i < |s.payments| {
      var p := s.payments[i];
      OpeningKeepsBooked(s, p.user);
      if !p.status.Succeeded? {
        CreditingKeepsBooked(s, i);
        StatusUpdate(s, i, p.(status := Canceled));
        StatusUpdate(s, i, p.(status := Canceled, creating := false));
      }
      StatusUpdate(s, i, p.(hasId := true, creating := false));
      StatusUpdate(s, i, p.(refunded := true));
    }
  }

  lemma EventKeepsBooked(s: Shop, e: Event)
    requires Booked(s) && Genuine(e) && !Overwrites(s, e)
    ensures Booked(After(s, e))
  {
    match e
    case Create(user, credits) => CreatingKeepsBooked(s, user, credits);
    case OnAccount(user, step) =>
      if user in s.accounts {
        AccountStepKeepsBooked(s, user, step);
      }
    case _ => PaymentEventKeepsBooked(s, e);
  }

  /** Under any interleaving of webhook settlement, reconcile, polling on stale reads, redelivery, cancellation and other
      account traffic, a payment has one PURCHASE row if it succeeded and none otherwise, in its buyer's ledger only, and
      each buyer's purchased credits are the sum over their succeeded payments. */
  lemma {:induction false} BookedInEveryRun(events: seq<Event>)
    requires AllGenuine(events) && NeverOverwrites(Closed, events)
    ensures Booked(Play(Closed, events))
  {
    if events == [] {
      assert Booked(Closed);
    } else {
      var front := events[..|events| - 1];
      assert forall i :: 0 <= i < |front| ==> front[i] == events[i];
      BookedInEveryRun(front);
      EventKeepsBooked(Play(Closed, front), events[|events| - 1]);
    }
  }

  // ----- with the failure branch -----

  /** What holds of payment `i` whatever happens: a pending one has no row, a succeeded one has one; one that a poll acts on
      was created to the end, and its rows still agree with its status. */
  ghost predicate PaymentSound(s: Shop, i: nat)
    requires i < |s.payments|
  {
    var p, rows := s.payments[i], PurchaseRows(s, s.payments[i].user, i);
    && 0 <= rows <= 1
    && (p.status.Succeeded? ==> rows == 1)
    && (p.status.Pending? ==> rows == 0 && (p.hasId ==> !p.creating))
    && (i in s.polls ==> !p.creating && (rows == 1 ==> p.status.Succeeded?))
  }

  ghost predicate Sound(s: Shop) {
    && (forall i :: 0 <= i < |s.payments| ==> PaymentSound(s, i))
    && (forall user, i: nat :: (i < |s.payments| && user == s.payments[i].user) || PurchaseRows(s, user, i) == 0)
    && (forall i :: i in s.polls ==> i < |s.payments|)
  }

  /** Nothing but the payment's own fields changes, or nothing but the rows of other operations. */
  lemma SameRowsKeepSound(s: Shop, t: Shop, i: nat)
    requires Sound(s) && i < |s.payments| == |t.payments| && forall j :: j != i ==> (j in t.polls <==> j in s.polls)
    requires forall user, j: nat :: PurchaseRows(t, user, j) == PurchaseRows(s, user, j)
    requires forall j :: 0 <= j < |s.payments| && j != i ==> t.payments[j] == s.payments[j]
    requires t.payments[i].user == s.payments[i].user && PaymentSound(t, i)
    ensures Sound(t)
  {
    forall j | 0 <= j < |t.payments| ensures PaymentSound(t, j) {
      assert PaymentSound(s, j);
    }
  }

  lemma OpeningKeepsRows(s: Shop, user: User, u: User, j: nat)
    ensures PurchaseRows(s.(accounts := Opened(s.accounts, user)), u, j) == PurchaseRows(s, u, j)
  {
  }

  lemma CreditingRows(s: Shop, i: nat, u: User, j: nat)
    requires i < |s.payments|
    ensures PurchaseRows(Credited(s, i), u, j) == PurchaseRows(s, u, j) + (if u == s.payments[i].user && j == i then 1 else 0)
  {
    var p := s.payments[i];
    var accounts := Opened(s.accounts, p.user);
    OpeningKeepsRows(s, p.user, u, j);
    if u == p.user {
      TotalAppend(accounts[u].ledger, Row(Purchase, p.credits, Some(Payment(i))), PurchaseOf(j));
      assert Credited(s, i).accounts[u] == PurchaseCredits(accounts[u], p.credits, i);
    }
  }

  lemma CreditingKeepsSound(s: Shop, i: nat)
    requires Sound(s) && i < |s.payments| && !s.payments[i].status.Succeeded?
    requires s.payments[i].status.Pending? || i in s.polls
    ensures Sound(Credited(s, i))
  {
    var t := Credited(s, i);
    assert PaymentSound(s, i);
    forall u, j: nat ensures PurchaseRows(t, u, j) == PurchaseRows(s, u, j) + (if u == s.payments[i].user && j == i then 1 else 0) {
      CreditingRows(s, i, u, j);
    }
    forall j | 0 <= j < |t.payments| ensures PaymentSound(t, j) {
      assert PaymentSound(s, j);
    }
  }

  lemma PaymentEventKeepsSound(s: Shop, e: Event)
    requires Sound(s) && !e.Create? && !e.OnAccount?
    ensures Sound(After(s, e))
  {
    var i, t := e.payment, After(s, e);
    if i < |s.payments| && t != s {
      assert PaymentSound(s, i);
      if t == Credited(s, i) {
        CreditingKeepsSound(s, i);
      } else {
        forall u, j: nat ensures PurchaseRows(t, u, j) == PurchaseRows(s, u, j) {
          OpeningKeepsRows(s, s.payments[i].user, u, j);
        }
        SameRowsKeepSound(s, t, i);
      }
    }
  }

  lemma AccountStepKeepsRows(s: Shop, user: User, step: Step, u: User, j: nat)
    requires user in s.accounts && !step.Purchasing?
    ensures PurchaseRows(s.(accounts := s.accounts[user := Next(s.accounts[user], step)]), u, j) == PurchaseRows(s, u, j)
  {
    if u == user {
      AccountStepKeepsTotal(s.accounts[user], step, j);
    }
  }

  lemma AccountStepKeepsTotal(a: Account, step: Step, j: nat)
    requires !step.Purchasing?
    ensures Total(Next(a, step).ledger, PurchaseOf(j)) == Total(a.ledger, PurchaseOf(j))
  {
    NoPurchaseRows(a, step);
    GrownTotal(a.ledger, Next(a, step).ledger, NotPurchase, PurchaseOf(j));
  }

  lemma EventKeepsSound(s: Shop, e: Event)
    requires Sound(s) && Genuine(e)
    ensures Sound(After(s, e))
  {
    var t := After(s, e);
    match e
    case Create(_, _) =>
      forall u, j: nat ensures PurchaseRows(t, u, j) == PurchaseRows(s, u, j) {
      }
      forall j | 0 <= j < |t.payments| ensures PaymentSound(t, j) {
        assert PurchaseRows(t, t.payments[j].user, j) == PurchaseRows(s, t.payments[j].user, j);
        assert j < |s.payments| ==> PaymentSound(s, j);
      }
    case OnAccount(user, step) =>
      if user in s.accounts {
        forall u, j: nat ensures PurchaseRows(t, u, j) == PurchaseRows(s, u, j) {
          AccountStepKeepsRows(s, user, step, u, j);
        }
        forall j | 0 <= j < |t.payments| ensures PaymentSound(t, j) {
          assert PaymentSound(s, j);
        }
      }
    case _ => PaymentEventKeepsSound(s, e);
  }

  /** No payment is ever credited twice, in any run, the failure branch of creation included: after it the payment is not
      pending, so no webhook settles it, and it never had an id to be polled with. */
  lemma {:induction false} CreditedAtMostOnce(events: seq<Event>)
    requires AllGenuine(events)
    ensures Sound(Play(Closed, events))
    ensures forall user, i: nat :: 0 <= PurchaseRows(Play(Closed, events), user, i) <= 1
  {
    if events == [] {
      assert Sound(Closed);
    } else {
      var front := events[..|events| - 1];
      assert forall i :: 0 <= i < |front| ==> front[i] == events[i];
      CreditedAtMostOnce(front);
      EventKeepsSound(Play(Closed, front), events[|events| - 1]);
    }
    forall user, i: nat ensures 0 <= PurchaseRows(Play(Closed, events), user, i) <= 1 {
      var s := Play(Closed, events);
      assert i < |s.payments| ==> PaymentSound(s, i);
    }
  }

  /** A settled payment that the failure branch has overwritten. */
  ghost predicate Stuck(s: Shop, i: nat) {
    && i < |s.payments| && s.payments[i].status.Canceled? && !s.payments[i].creating && i !in s.polls
    && PurchaseRows(s, s.payments[i].user, i) == 1
  }

  lemma EventKeepsStuck(s: Shop, e: Event, i: nat)
    requires Stuck(s, i) && Genuine(e)
    ensures Stuck(After(s, e), i)
  {
    var user := s.payments[i].user;
    match e
    case Create(_, _) =>
    case OnAccount(u, step) =>
      if u in s.accounts {
        AccountStepKeepsRows(s, u, step, user, i);
      }
    case _ => PaymentEventKeepsStuck(s, e, i);
  }

  lemma PaymentEventKeepsStuck(s: Shop, e: Event, i: nat)
    requires Stuck(s, i) && !e.Create? && !e.OnAccount?
    ensures Stuck(After(s, e), i)
  {
    var user, t := s.payments[i].user, After(s, e);
    if e.payment < |s.payments| && t != s {
      if t == Credited(s, e.payment) {
        CreditingRows(s, e.payment, user, i);
      } else {
        OpeningKeepsRows(s, s.payments[e.payment].user, user, i);
        assert PurchaseRows(t, user, i) == PurchaseRows(s, user, i);
      }
    }
  }

  lemma StuckIsNotBooked(s: Shop, i: nat)
    requires Stuck(s, i)
    ensures !Booked(s)
  {
    assert !PaidOnce(s, s.payments[i].user, i);
  }

  lemma {:induction false} OverwrittenStaysStuck(events: seq<Event>) returns (i: nat)
    requires AllGenuine(events) && !NeverOverwrites(Closed, events)
    ensures Stuck(Play(Closed, events), i)
  {
    var front, e := events[..|events| - 1], events[|events| - 1];
    assert forall k :: 0 <= k < |front| ==> front[k] == events[k];
    var s := Play(Closed, front);
    if NeverOverwrites(Closed, front) {
      CreditedAtMostOnce(front);
      i := e.payment;
      assert PaymentSound(s, i);
    } else {
      i := OverwrittenStaysStuck(front);
      EventKeepsStuck(s, e, i);
    }
  }

  /** In every run the books are right at the end if and only if no failure branch overwrote a settled payment. */
  lemma BookedIffNeverOverwritten(events: seq<Event>)
    requires AllGenuine(events)
    ensures Booked(Play(Closed, events)) <==> NeverOverwrites(Closed, events)
  {
    if NeverOverwrites(Closed, events) {
      BookedInEveryRun(events);
    } else {
      var i := OverwrittenStaysStuck(events);
      StuckIsNotBooked(Play(Closed, events), i);
    }
  }

  /** Once its creation has ended a succeeded payment stays succeeded, in every run. */
  lemma {:induction false} SucceededIsFinal(s: Shop, events: seq<Event>, i: nat)
    requires i < |s.payments| && s.payments[i].status.Succeeded? && !s.payments[i].creating
    ensures i < |Play(s, events).payments| && Play(s, events).payments[i].status.Succeeded? && !Play(s, events).payments[i].creating
  {
    if events != [] {
      SucceededIsFinal(s, events[..|events| - 1], i);
    }
  }

  /** The failure branch keeps the books exactly when the payment has not succeeded in the meantime. */
  lemma CreateFailureKeepsBookedIff(s: Shop, i: nat)
    requires Booked(s) && i < |s.payments| && s.payments[i].creating
    ensures Booked(After(s, CreateFailed(i))) <==> !s.payments[i].status.Succeeded?
  {
    if s.payments[i].status.Succeeded? {
      var user, t := s.payments[i].user, After(s, CreateFailed(i));
      assert PurchaseRows(s, user, i) == 1;
      assert PurchaseRows(t, user, i) == 1 && !PaidOnce(t, user, i);
    } else {
      EventKeepsBooked(s, CreateFailed(i));
    }
  }

  // ----- what a payment event does -----

  /** The balance of a user; the account is opened on first use. */
  function BalanceOf(s: Shop, user: User): int {
    if user in s.accounts then s.accounts[user].balance else FREE_ONETIME_CREDITS
  }

  /** The provider has the money, for a payment that is not settled: a webhook or sweep settles pending ones only, a poll one
      that it read as pending, whatever it is by now short of succeeded. */
  predicate Pays(s: Shop, e: Event, i: nat) {
    && i < |s.payments|
    && ((e == Settle(i, SaysSucceeded(true)) && s.payments[i].status.Pending?)
        || (e == Apply(i) && i in s.polls && !s.payments[i].status.Succeeded?))
  }

  predicate Cancels(s: Shop, e: Event, i: nat) {
    && i < |s.payments|
    && ((e == Settle(i, SaysCanceled) && s.payments[i].status.Pending?)
        || (e == Cancel(i) && i in s.polls && s.payments[i].status.Pending?)
        || (e == CreateFailed(i) && s.payments[i].creating))
  }

  /** A paid payment succeeds, and its buyer, nobody else, has exactly its credits more and one PURCHASE row more for it. */
  lemma PaidIsCredited(s: Shop, e: Event, i: nat, user: User, j: nat)
    requires Pays(s, e, i)
    ensures var t, p := After(s, e), s.payments[i];
            && t.payments == s.payments[i := p.(status := Succeeded, hasId := true)] && t.polls == s.polls
            && BalanceOf(t, user) == BalanceOf(s, user) + (if user == p.user then p.credits else 0)
            && (user in s.accounts ==> user in t.accounts && t.accounts[user].reserved == s.accounts[user].reserved)
            && PurchaseRows(t, user, j) == PurchaseRows(s, user, j) + (if user == p.user && j == i then 1 else 0)
  {
    CreditingRows(s, i, user, j);
  }

  /** Any other payment event leaves every balance, hold and ledger alone; so do an answer without the right amount and one
      that is neither success nor cancellation. */
  lemma OthersCreditNobody(s: Shop, e: Event, user: User, j: nat)
    requires !e.OnAccount? && forall i: nat :: !Pays(s, e, i)
    ensures var t := After(s, e);
            && BalanceOf(t, user) == BalanceOf(s, user) && PurchaseRows(t, user, j) == PurchaseRows(s, user, j)
            && (user in s.accounts ==> user in t.accounts && t.accounts[user] == s.accounts[user])
    ensures e.Settle? && (e.verdict.SaysOther? || e.verdict == SaysSucceeded(false)) ==> After(s, e) == s
  {
    if !e.Create? {
      assert !Pays(s, e, e.payment);
      if e.payment < |s.payments| {
        OpeningKeepsRows(s, s.payments[e.payment].user, user, j);
      }
    }
  }

  /** How each payment goes on, column by column. */
  lemma PaymentSteps(s: Shop, e: Event, i: nat)
    requires i < |s.payments|
    ensures var p, t := s.payments[i], After(s, e);
            && |t.payments| == |s.payments| + (if e.Create? then 1 else 0)
            && t.payments[i].user == p.user && t.payments[i].credits == p.credits
            && t.payments[i].status == (if Pays(s, e, i) then Succeeded else if Cancels(s, e, i) then Canceled else p.status)
            && t.payments[i].hasId == (p.hasId || Pays(s, e, i) || (e == CreateDone(i) && p.creating))
            && t.payments[i].creating == (p.creating && e != CreateDone(i) && e != CreateFailed(i))
            && t.payments[i].refunded == (p.refunded || e == Refund(i))
  {
    if e.Settle? || e.Apply? || e.Cancel? {
      SettlingSteps(s, e, i);
    }
  }

  lemma SettlingSteps(s: Shop, e: Event, i: nat)
    requires i < |s.payments| && (e.Settle? || e.Apply? || e.Cancel?)
    ensures var p, t := s.payments[i], After(s, e);
            && |t.payments| == |s.payments|
            && t.payments[i] == if Pays(s, e, i) then p.(status := Succeeded, hasId := true)
                                else if Cancels(s, e, i) then p.(status := Canceled) else p
  {
  }

  /** A new payment is pending; a poll remembers one it read as pending with the provider's id. */
  lemma PaymentBegins(s: Shop, e: Event, j: nat)
    ensures e.Create? ==> After(s, e).payments[|s.payments|] == Paid(e.user, e.credits, Pending, false, false, true)
    ensures j in After(s, e).polls <==>
            j in s.polls || (e == PollReads(j) && j < |s.payments| && s.payments[j].status.Pending? && s.payments[j].hasId)
  {
  }

  /** Any other transaction is a step of the one account, and touches no payment; without an account there is none. */
  lemma AccountSteps(s: Shop, user: User, step: Step, other: User)
    ensures var t := After(s, OnAccount(user, step));
            && t.payments == s.payments && t.polls == s.polls && t.accounts.Keys == s.accounts.Keys
            && (other in s.accounts ==> t.accounts[other] == if other == user then Next(s.accounts[other], step) else s.accounts[other])
  {
  }

  lemma PlaySnoc(s: Shop, events: seq<Event>, e: Event)
    ensures Play(s, []) == s && Play(s, events + [e]) == After(Play(s, events), e)
  {
    assert (events + [e])[..|events|] == events;
  }

  ghost predicate WasPaid(s: Shop, events: seq<Event>, i: nat) {
    events != [] && (WasPaid(s, events[..|events| - 1], i) || Pays(Play(s, events[..|events| - 1]), events[|events| - 1], i))
  }

  lemma EventCredits(s: Shop, e: Event, user: User, i: nat)
    requires Genuine(e)
    ensures PurchaseRows(After(s, e), user, i)
         == PurchaseRows(s, user, i) + if Pays(s, e, i) && user == s.payments[i].user then 1 else 0
  {
    if e.OnAccount? {
      if e.user in s.accounts {
        AccountStepKeepsRows(s, e.user, e.step, user, i);
      }
    } else if !e.Create? && Pays(s, e, e.payment) {
      PaidIsCredited(s, e, e.payment, user, i);
    } else {
      OthersCreditNobody(s, e, user, i);
    }
  }

  /** In every run a payment is credited, to its buyer, once the provider has been seen to have the money, and not before. */
  lemma {:induction false} CreditedIffPaid(events: seq<Event>, i: nat)
    requires AllGenuine(events) && i < |Play(Closed, events).payments|
    ensures var s := Play(Closed, events); PurchaseRows(s, s.payments[i].user, i) == if WasPaid(Closed, events, i) then 1 else 0
  {
    var front, e := events[..|events| - 1], events[|events| - 1];
    assert forall k :: 0 <= k < |front| ==> front[k] == events[k];
    var s, t := Play(Closed, front), Play(Closed, events);
    CreditedAtMostOnce(front);
    CreditedAtMostOnce(events);
    EventCredits(s, e, t.payments[i].user, i);
    if i < |s.payments| {
      CreditedIffPaid(front, i);
      PaymentSteps(s, e, i);
    } else {
      NotYetPaid(front, i);
      assert PurchaseRows(s, t.payments[i].user, i) == 0;
    }
  }

  lemma {:induction false} NotYetPaid(events: seq<Event>, i: nat)
    requires |Play(Closed, events).payments| <= i
    ensures !WasPaid(Closed, events, i)
  {
    if events != [] {
      var front, e := events[..|events| - 1], events[|events| - 1];
      var s := Play(Closed, front);
      if i < |s.payments| {
        PaymentSteps(s, e, i);
      }
      NotYetPaid(front, i);
    }
  }
}
