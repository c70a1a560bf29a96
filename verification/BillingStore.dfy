/** services/billing_service.py over its tables: each method is one request, and its contract is the specification step. */
module BillingStore {
  import opened Common
  import opened Ledger
  import opened Billing
  import opened Purchases

  class Database {
    var accounts: map<User, Account>
    var payments: seq<Paid>
    ghost var polls: set<nat>

    constructor ()
      ensures State() == Closed
    {
      accounts, payments, polls := map[], [], {};
    }

    ghost function State(): Shop
      reads this
    {
      Shop(accounts, payments, polls)
    }

    method GetOrCreateAccount(user: User) returns (account: Account)
      modifies this`accounts
      ensures accounts == Opened(old(accounts), user)
      ensures user in accounts && account == accounts[user]
    {
      if user !in accounts {
        accounts := accounts[user := NewAccount()];
      }
      account := accounts[user];
    }

    method ReserveCredits(user: User, amount: nat, ref: Ref) returns (ok: bool)
      modifies this`accounts
      ensures var table := Opened(old(accounts), user);
              ok == CanReserve(table[user], amount) && accounts == table[user := Next(table[user], Reserving(amount, ref))]
    {
      var account := GetOrCreateAccount(user);
      if account.balance - account.reserved < amount {
        assert accounts == accounts[user := account];
        return false;
      }
      account := account.(reserved := account.reserved + amount);
      account := account.(ledger := account.ledger + [Row(Operation.Reserve, -(amount as int), Some(ref))]);
      accounts := accounts[user := account];
      return true;
    }

    method ReleaseCredits(user: User, amount: nat, ref: Ref)
      modifies this`accounts
      ensures State() == After(old(State()), OnAccount(user, Releasing(amount, ref)))
    {
      if user !in accounts {
        return;
      }
      var account := accounts[user];
      account := account.(reserved := if account.reserved < amount then 0 else account.reserved - amount);
      account := account.(ledger := account.ledger + [Row(Operation.Release, amount, Some(ref))]);
      accounts := accounts[user := account];
    }

    /** The counts and the newest RESERVE row of one ref, in one pass over the ledger. */
    static method ReadRef(rows: seq<Row>, ref: Ref) returns (reserves: nat, finalizers: nat, last: Option<Row>)
      ensures reserves == Reserves(rows, ref) && finalizers == Finalizers(rows, ref) && last == LastReserve(rows, ref)
    {
      reserves, finalizers, last := 0, 0, None;
      for i := 0 to |rows|
        invariant reserves == Reserves(rows[..i], ref) && finalizers == Finalizers(rows[..i], ref)
        invariant last == LastReserve(rows[..i], ref)
      {
        assert rows[..i + 1] == rows[..i] + [rows[i]];
        AppendAt(rows[..i], rows[i], ref);
        if rows[i].ref == Some(ref) {
          if rows[i].op.Reserve? {
            reserves, last := reserves + 1, Some(rows[i]);
          } else {
            finalizers := finalizers + 1;
          }
        }
      }
      assert rows[..|rows|] == rows;
    }

    method ReleaseReservationIfHeld(user: User, ref: Ref) returns (released: bool)
      modifies this`accounts
      ensures State() == After(old(State()), OnAccount(user, ReleasingIfHeld(ref)))
      ensures released == (user in old(accounts) && IsHeld(old(accounts)[user], ref))
    {
      if user !in accounts {
        return false;
      }
      var account := accounts[user];
      var reserves, finalizers, last := ReadRef(account.ledger, ref);
      if reserves <= finalizers {
        assert accounts == accounts[user := account];
        return false;
      }
      CountsNonNegative(account.ledger, ref);
      var amount := -last.value.delta;
      account := account.(reserved := if account.reserved < amount then 0 else account.reserved - amount);
      account := account.(ledger := account.ledger + [Row(Operation.Release, amount, Some(ref))]);
      accounts := accounts[user := account];
      return true;
    }

    method ChargeCredits(user: User, amount: nat, ref: Ref, work: Work)
      modifies this`accounts
      ensures State() == After(old(State()), OnAccount(user, Charging(amount, ref, work)))
    {
      if user !in accounts {
        return;
      }
      var account := accounts[user];
      account := account.(balance := if account.balance < amount then 0 else account.balance - amount);
      account := account.(reserved := if account.reserved < amount then 0 else account.reserved - amount);
      account := account.(ledger := account.ledger + [Row(Charge(work), -(amount as int), Some(ref))]);
      accounts := accounts[user := account];
    }

    method GrantCreditsTo(user: User, amount: nat)
      modifies this`accounts
      ensures var table := Opened(old(accounts), user); accounts == table[user := Next(table[user], Granting(amount))]
    {
      var account := GetOrCreateAccount(user);
      account := account.(balance := account.balance + amount, ledger := account.ledger + [Row(Grant, amount, None)]);
      accounts := accounts[user := account];
    }

    method SyncFinalizeGeneration(user: User, ref: Ref, estimate: nat, spent: int, work: Work) returns (settled: bool)
      modifies this`accounts
      ensures State() == After(old(State()), OnAccount(user, Finalizing(ref, estimate, spent, work)))
      ensures settled == (user in old(accounts) && !IsFinalized(old(accounts)[user], ref))
    {
      if user !in accounts {
        return false;
      }
      var account := accounts[user];
      var _, finalized, _ := ReadRef(account.ledger, ref);
      if finalized != 0 {
        assert accounts == accounts[user := account];
        return false;
      }
      account := SettleHold(account, ref, estimate, spent, work);
      accounts := accounts[user := account];
      return true;
    }

    /** Charge what was spent, within the hold, and release the rest. */
    static method SettleHold(before: Account, ref: Ref, estimate: nat, spent: int, work: Work) returns (account: Account)
      requires !IsFinalized(before, ref)
      ensures account == Finalize(before, ref, estimate, spent, work)
    {
      var paid: int := if spent < estimate then spent else estimate;
      if paid < 0 {
        paid := 0;
      }
      var remainder := estimate - paid;
      account := before.(reserved := if before.reserved < estimate then 0 else before.reserved - estimate);
      account := account.(balance := if account.balance < paid then 0 else account.balance - paid);
      if paid != 0 {
        account := account.(ledger := account.ledger + [Row(Charge(work), -paid, Some(ref))]);
      }
      if remainder != 0 || paid == 0 {
        account := account.(ledger := account.ledger + [Row(Operation.Release, remainder, Some(ref))]);
      }
    }

    /** create_payment up to its commit of the pending row. */
    method CreatePayment(user: User, credits: nat) returns (payment: nat)
      modifies this`payments
      ensures State() == After(old(State()), Create(user, credits)) && payment == |old(payments)|
    {
      payment := |payments|;
      payments := payments + [Paid(user, credits, Pending, false, false, true)];
    }

    /** The rest of create_payment; `confirmed` is whether the provider answered with a confirmation link. */
    method FinishCreation(payment: nat, confirmed: bool)
      requires payment < |payments| && payments[payment].creating
      modifies this`payments
      ensures State() == After(old(State()), if confirmed then CreateDone(payment) else CreateFailed(payment))
    {
      var row := payments[payment].(creating := false);
      if confirmed {
        row := row.(hasId := true);
      } else {
        row := row.(status := Canceled);
      }
      payments := payments[payment := row];
    }

    /** The guard of _settle_from_yookassa, before it asks the provider. */
    method PollMayAsk(payment: nat) returns (ask: bool)
      modifies this`polls
      ensures State() == After(old(State()), PollReads(payment))
      ensures ask ==> payment in polls
    {
      ask := payment < |payments| && payments[payment].status.Pending? && payments[payment].hasId;
      if ask {
        polls := polls + {payment};
      }
    }

    /** What it does with the answer, however late: apply_purchase or mark_payment_canceled. */
    method SettleFromPoll(payment: nat, verdict: Verdict) returns (credited: bool)
      requires payment in polls
      modifies this
      ensures State() == match verdict
                         case SaysSucceeded(matches) => if matches then After(old(State()), Apply(payment)) else old(State())
                         case SaysCanceled => After(old(State()), Cancel(payment))
                         case SaysOther => old(State())
      ensures credited == (verdict == SaysSucceeded(true) && payment < |old(payments)| && !old(payments)[payment].status.Succeeded?)
    {
      credited := false;
      match verdict
      case SaysSucceeded(matches) =>
        if matches {
          credited := ApplyPurchaseOf(payment);
        }
      case SaysCanceled =>
        if payment < |payments| && payments[payment].status.Pending? {
          payments := payments[payment := payments[payment].(status := Canceled)];
        }
      case SaysOther =>
    }

    method ApplyPurchaseOf(payment: nat) returns (credited: bool)
      requires payment in polls
      modifies this`accounts, this`payments
      ensures State() == After(old(State()), Apply(payment))
      ensures credited == (payment < |old(payments)| && !old(payments)[payment].status.Succeeded?)
      ensures credited ==> var row := old(payments)[payment];
                           && payments[payment].status.Succeeded?
                           && BalanceOf(State(), row.user) == BalanceOf(old(State()), row.user) + row.credits
    {
      if payment >= |payments| {
        return false;
      }
      var account := GetOrCreateAccount(payments[payment].user);
      var row := payments[payment];
      if row.status.Succeeded? {
        return false;
      }
      account := account.(balance := account.balance + row.credits,
                          ledger := account.ledger + [Row(Purchase, row.credits, Some(Payment(payment)))]);
      accounts := accounts[row.user := account];
      payments := payments[payment := row.(status := Succeeded, hasId := true)];
      return true;
    }

    method SettleFromWebhook(payment: nat, verdict: Verdict) returns (credited: bool)
      modifies this
      ensures State() == After(old(State()), Settle(payment, verdict))
      ensures credited == (payment < |old(payments)| && old(payments)[payment].status.Pending? && verdict == SaysSucceeded(true))
      ensures credited ==> var row := old(payments)[payment];
                           && payments[payment].status.Succeeded?
                           && BalanceOf(State(), row.user) == BalanceOf(old(State()), row.user) + row.credits
    {
      if payment >= |payments| || !payments[payment].status.Pending? {
        return false;
      }
      match verdict
      case SaysCanceled =>
        payments := payments[payment := payments[payment].(status := Canceled)];
        return false;
      case SaysOther =>
        return false;
      case SaysSucceeded(matches) =>
        if !matches {
          return false;
        }
        var row := payments[payment];
        var account := GetOrCreateAccount(row.user);
        account := account.(balance := account.balance + row.credits,
                            ledger := account.ledger + [Row(Purchase, row.credits, Some(Payment(payment)))]);
        accounts := accounts[row.user := account];
        payments := payments[payment := row.(status := Succeeded, hasId := true)];
        return true;
    }

    static method RenewOne(before: Account, now: int) returns (account: Account)
      ensures account == Renew(before, now)
    {
      account := before;
      var carry := if account.balance < account.allowance / 2 then account.balance else account.allowance / 2;
      var expired := account.balance - carry;
      if expired > 0 {
        account := account.(ledger := account.ledger + [Row(Expire, -expired, None)]);
      }
      account := account.(balance := carry + account.allowance, resetsAt := Some(now + RENEWAL_PERIOD));
      account := account.(ledger := account.ledger + [Row(Grant, account.allowance, None)]);
    }

    /** The accounts on a paid plan whose period has ended are renewed, once each, and no others; afterwards none has ended. */
    method ProcessMonthlyRenewal(now: int) returns (count: nat)
      modifies this`accounts
      ensures accounts.Keys == old(accounts).Keys
      ensures forall user :: user in accounts ==>
                var before := old(accounts)[user];
                if before.free || before.resetsAt.None? || now < before.resetsAt.value then accounts[user] == before
                else
                  && accounts[user].balance == before.allowance + Min(before.balance, before.allowance / 2)
                  && accounts[user].reserved == before.reserved && accounts[user].resetsAt == Some(now + RENEWAL_PERIOD)
                  && BalanceSum(accounts[user].ledger) - BalanceSum(before.ledger) == accounts[user].balance - before.balance
      ensures forall user :: user in accounts ==> accounts[user].free || accounts[user].resetsAt.None? || now < accounts[user].resetsAt.value
      ensures count == |set user | user in old(accounts) && !old(accounts)[user].free
                                   && old(accounts)[user].resetsAt.Some? && old(accounts)[user].resetsAt.value <= now|
    {
      ghost var start := accounts;
      var due := set user | user in accounts && !accounts[user].free && accounts[user].resetsAt.Some? && accounts[user].resetsAt.value <= now;
      var pending := due;
      count := 0;
      while pending != {}
        invariant pending <= due && count == |due| - |pending|
        invariant accounts.Keys == start.Keys
        invariant forall user :: user in start ==>
                    accounts[user] == if user in due && user !in pending then Renew(start[user], now) else start[user]
        decreases pending
      {
        var user :| user in pending;
        var renewed := RenewOne(accounts[user], now);
        accounts := accounts[user := renewed];
        pending := pending - {user};
        count := count + 1;
      }
      forall user | user in due ensures Renewed(start[user], accounts[user], now) {
        RenewsAccount(start[user], now);
      }
    }
  }

  ghost predicate Renewed(before: Account, after: Account, now: int) {
    && after.balance == before.allowance + Min(before.balance, before.allowance / 2)
    && after.reserved == before.reserved && after.resetsAt == Some(now + RENEWAL_PERIOD)
    && BalanceSum(after.ledger) - BalanceSum(before.ledger) == after.balance - before.balance
  }

  lemma RenewsAccount(a: Account, now: int)
    ensures Renewed(a, Renew(a, now), now)
  {
    RenewGap(a, now);
  }
}
