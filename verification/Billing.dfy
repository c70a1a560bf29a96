/** The credit account (services/billing_service.py) as committed transactions on one row and its ledger.
    Every FOR UPDATE read is a fresh read of the row, so a run is a sequence of steps in commit order. */
module Billing {
  import opened Common
  import opened Ledger

  datatype Account = Account(balance: int, reserved: int, free: bool, allowance: nat, resetsAt: Option<int>, ledger: seq<Row>) {
    function Add(op: Operation, delta: int, ref: Option<Ref>): Account {
      this.(ledger := ledger + [Row(op, delta, ref)])
    }
  }

  const RENEWAL_PERIOD := 30 * 24 * 3600
  const FREE_ONETIME_CREDITS := 0

  /** The row get_or_create_account inserts: the free plan with its one-time credits. */
  function NewAccount(): Account {
    Account(FREE_ONETIME_CREDITS, 0, true, 0, None, [])
  }

  // ----- one committed transaction each -----

  function CanReserve(a: Account, amount: nat): bool {
    a.balance - a.reserved >= amount
  }

  function ReserveHold(a: Account, amount: nat, ref: Ref): Account {
    if !CanReserve(a, amount) then a
    else a.(reserved := a.reserved + amount).Add(Operation.Reserve, -(amount as int), Some(ref))
  }

  function ReleaseHold(a: Account, amount: nat, ref: Ref): Account {
    a.(reserved := Max(0, a.reserved - amount)).Add(Operation.Release, amount, Some(ref))
  }

  predicate IsHeld(a: Account, ref: Ref) {
    Reserves(a.ledger, ref) > Finalizers(a.ledger, ref)
  }

  function ReleaseIfHeld(a: Account, ref: Ref): Account {
    var last := LastReserve(a.ledger, ref);
    if !IsHeld(a, ref) || last.None? then a
    else
      a.(reserved := Max(0, a.reserved + last.value.delta)).Add(Operation.Release, -last.value.delta, Some(ref))
  }

  function ChargeHold(a: Account, amount: nat, ref: Ref, work: Work): Account {
    a.(balance := Max(0, a.balance - amount), reserved := Max(0, a.reserved - amount)).Add(Charge(work), -(amount as int), Some(ref))
  }

  function GrantCredits(a: Account, amount: nat): Account {
    a.(balance := a.balance + amount).Add(Grant, amount, None)
  }

  function PurchaseCredits(a: Account, credits: nat, payment: nat): Account {
    a.(balance := a.balance + credits).Add(Purchase, credits, Some(Payment(payment)))
  }

  predicate IsFinalized(a: Account, ref: Ref) {
    Finalizers(a.ledger, ref) != 0
  }

  function Clamped(spent: int, estimate: nat): nat {
    Max(0, Min(spent, estimate))
  }

  function Finalize(a: Account, ref: Ref, estimate: nat, spent: int, work: Work): Account {
    if IsFinalized(a, ref) then a
    else
      var paid := Clamped(spent, estimate);
      var settled := a.(reserved := Max(0, a.reserved - estimate), balance := Max(0, a.balance - paid));
      var charged := if paid != 0 then settled.Add(Charge(work), -(paid as int), Some(ref)) else settled;
      if estimate - paid != 0 || paid == 0 then charged.Add(Operation.Release, estimate - paid, Some(ref)) else charged
  }

  function Carry(a: Account): int {
    Min(a.balance, a.allowance / 2)
  }

  function Renew(a: Account, now: int): Account {
    var expired := a.balance - Carry(a);
    var swept := if expired > 0 then a.Add(Expire, -expired, None) else a;
    swept.(balance := Carry(a) + a.allowance, resetsAt := Some(now + RENEWAL_PERIOD)).Add(Grant, a.allowance, None)
  }

  datatype Step =
    | Reserving(amount: nat, ref: Ref)
    | Releasing(amount: nat, ref: Ref)
    | ReleasingIfHeld(ref: Ref)
    | Charging(amount: nat, ref: Ref, work: Work)
    | Granting(amount: nat)
    | Purchasing(amount: nat, payment: nat)
    | Finalizing(ref: Ref, estimate: nat, spent: int, work: Work)
    | Renewing(now: int)

  function Next(a: Account, step: Step): Account {
    match step
    case Reserving(amount, ref) => ReserveHold(a, amount, ref)
    case Releasing(amount, ref) => ReleaseHold(a, amount, ref)
    case ReleasingIfHeld(ref) => ReleaseIfHeld(a, ref)
    case Charging(amount, ref, work) => ChargeHold(a, amount, ref, work)
    case Granting(amount) => GrantCredits(a, amount)
    case Purchasing(amount, payment) => PurchaseCredits(a, amount, payment)
    case Finalizing(ref, estimate, spent, work) => Finalize(a, ref, estimate, spent, work)
    case Renewing(now) => Renew(a, now)
  }

  function Run(a: Account, steps: seq<Step>): Account {
    if steps == [] then a else Next(Run(a, steps[..|steps| - 1]), steps[|steps| - 1])
  }

  /** The discipline under which the account invariants hold: a launch reserves under a fresh ref, a hold is settled with no
      more than is held under its ref, and a finalizer is handed the amount its launch reserved. Most call sites keep it by
      themselves; a release_credits after a failed enqueue does not look at the ledger and keeps it only while nobody else
      has settled the ref, see ReleasingIsSafeIff. */
  predicate Allowed(a: Account, step: Step) {
    match step
    case Reserving(_, ref) => !ref.Payment? && (ref.Launch? ==> Unused(a.ledger, ref))
    case Releasing(amount, ref) => !ref.Payment? && amount <= Outstanding(a.ledger, ref)
    case Charging(amount, ref, _) => !ref.Payment? && amount <= Outstanding(a.ledger, ref)
    case ReleasingIfHeld(ref) => ref.Launch?
    case Finalizing(ref, estimate, _, _) => ref.Launch? && (!IsFinalized(a, ref) ==> estimate == Outstanding(a.ledger, ref))
    case _ => true
  }

  predicate AllAllowed(a: Account, steps: seq<Step>) {
    steps == [] || (AllAllowed(a, steps[..|steps| - 1]) && Allowed(Run(a, steps[..|steps| - 1]), steps[|steps| - 1]))
  }

  predicate NoRenewal(steps: seq<Step>) {
    forall step :: step in steps ==> !step.Renewing?
  }

  // ----- invariants -----

  /** A launch ref was reserved at most once, and until its first finalizer the whole reservation is outstanding. */
  ghost predicate LaunchShape(rows: seq<Row>, ref: Ref) {
    && Reserves(rows, ref) <= 1
    && (Finalizers(rows, ref) == 0 ==>
          Outstanding(rows, ref) == if LastReserve(rows, ref).Some? then -LastReserve(rows, ref).value.delta else 0)
    && (LastReserve(rows, ref).Some? ==> LastReserve(rows, ref).value.delta <= 0)
  }

  /** `reserved` is exactly what the ledger says is held, and no ref is overdrawn. */
  ghost predicate HoldsAgree(a: Account) {
    && a.reserved == HeldSum(a.ledger)
    && (forall ref :: Outstanding(a.ledger, ref) >= 0)
    && (forall ref: Ref :: ref.Launch? ==> LaunchShape(a.ledger, ref))
    && (forall i :: 0 <= i < |a.ledger| && a.ledger[i].ref.None? ==> HoldMove(a.ledger[i]) == 0)
  }

  ghost predicate Solvent(a: Account) {
    a.reserved <= a.balance && a.balance == BalanceSum(a.ledger)
  }

  /** No max(0, ...) in this step changes a value. */
  predicate ClampIdle(a: Account, step: Step) {
    match step
    case Releasing(amount, _) => amount <= a.reserved
    case Charging(amount, _, _) => amount <= a.reserved && amount <= a.balance
    case ReleasingIfHeld(ref) => IsHeld(a, ref) && LastReserve(a.ledger, ref).Some? ==> 0 <= a.reserved + LastReserve(a.ledger, ref).value.delta
    case Finalizing(ref, estimate, spent, _) => !IsFinalized(a, ref) ==> estimate <= a.reserved && Clamped(spent, estimate) <= a.balance
    case _ => true
  }

  /** How much of the charge of this step the balance could not cover. */
  function Shortfall(a: Account, step: Step): nat {
    match step
    case Charging(amount, _, _) => Max(0, amount - a.balance)
    case Finalizing(ref, estimate, spent, _) => if IsFinalized(a, ref) then 0 else Max(0, Clamped(spent, estimate) - a.balance)
    case _ => 0
  }

  function Gap(a: Account): int {
    a.balance - BalanceSum(a.ledger)
  }

  // ----- one step -----

  /** `later` is `rows` with up to two rows after it, each keeping `kept`. */
  ghost predicate Grown(rows: seq<Row>, later: seq<Row>, kept: Row -> bool) {
    && |rows| <= |later| <= |rows| + 2 && later[..|rows|] == rows
    && forall i :: |rows| <= i < |later| ==> kept(later[i])
  }

  predicate NotPurchase(row: Row) {
    !row.op.Purchase?
  }

  function NotUnder(ref: Ref): Row -> bool {
    (row: Row) => row.ref != Some(ref)
  }

  /** A row a step writes names the step's ref, or no ref and no purchase. */
  predicate WrittenBy(step: Step, row: Row) {
    && (row.ref.None? || (step.Purchasing? && row.ref == Some(Payment(step.payment)))
        || (!step.Granting? && !step.Purchasing? && !step.Renewing? && row.ref == Some(step.ref)))
    && (row.op.Purchase? ==> step.Purchasing?)
  }

  lemma GrownByOne(rows: seq<Row>, row: Row, kept: Row -> bool)
    requires kept(row)
    ensures Grown(rows, rows + [row], kept)
  {
  }

  lemma GrownByTwo(rows: seq<Row>, first: Row, second: Row, kept: Row -> bool)
    requires kept(first) && kept(second)
    ensures Grown(rows, rows + [first] + [second], kept)
  {
  }

  lemma FinalizeWrites(a: Account, ref: Ref, estimate: nat, spent: int, work: Work)
    ensures Grown(a.ledger, Finalize(a, ref, estimate, spent, work).ledger,
                  (row: Row) => WrittenBy(Finalizing(ref, estimate, spent, work), row))
  {
    var kept := (row: Row) => WrittenBy(Finalizing(ref, estimate, spent, work), row);
    if !IsFinalized(a, ref) {
      var paid := Clamped(spent, estimate);
      FinalizeRows(a, ref, estimate, spent, work);
      GrownByOne(a.ledger, PaidRow(paid, ref, work), kept);
      GrownByOne(a.ledger, RestRow(paid, estimate, ref), kept);
      GrownByTwo(a.ledger, PaidRow(paid, ref, work), RestRow(paid, estimate, ref), kept);
    }
  }

  lemma RenewWrites(a: Account, now: int)
    ensures Grown(a.ledger, Renew(a, now).ledger, (row: Row) => WrittenBy(Renewing(now), row))
  {
    var kept := (row: Row) => WrittenBy(Renewing(now), row);
    RenewRows(a, now);
    GrownByOne(a.ledger, GrantRow(a), kept);
    GrownByTwo(a.ledger, SweepRow(a), GrantRow(a), kept);
  }

  lemma StepWrites(a: Account, step: Step)
    ensures Grown(a.ledger, Next(a, step).ledger, (row: Row) => WrittenBy(step, row))
  {
    if step.Finalizing? {
      FinalizeWrites(a, step.ref, step.estimate, step.spent, step.work);
    } else if step.Renewing? {
      RenewWrites(a, step.now);
    } else if step.ReleasingIfHeld? {
      CancelWrites(a, step.ref);
    } else {
      OneRow(a, step);
      GrownByOne(a.ledger, RowOf(step), (row: Row) => WrittenBy(step, row));
    }
  }

  lemma CancelWrites(a: Account, ref: Ref)
    ensures Grown(a.ledger, ReleaseIfHeld(a, ref).ledger, (row: Row) => WrittenBy(ReleasingIfHeld(ref), row))
  {
    if IsHeld(a, ref) && LastReserve(a.ledger, ref).Some? {
      GrownByOne(a.ledger, Row(Operation.Release, -LastReserve(a.ledger, ref).value.delta, Some(ref)),
                 (row: Row) => WrittenBy(ReleasingIfHeld(ref), row));
    }
  }

  lemma GrownWeaker(rows: seq<Row>, later: seq<Row>, kept: Row -> bool, weaker: Row -> bool)
    requires Grown(rows, later, kept) && forall row :: kept(row) ==> weaker(row)
    ensures Grown(rows, later, weaker)
  {
  }

  lemma OtherRows(a: Account, step: Step, ref: Ref)
    requires !ref.Payment? && (step.Granting? || step.Purchasing? || step.Renewing? || step.ref != ref)
    ensures Grown(a.ledger, Next(a, step).ledger, NotUnder(ref))
  {
    StepWrites(a, step);
    GrownWeaker(a.ledger, Next(a, step).ledger, (row: Row) => WrittenBy(step, row), NotUnder(ref));
  }

  lemma NoPurchaseRows(a: Account, step: Step)
    requires !step.Purchasing?
    ensures Grown(a.ledger, Next(a, step).ledger, NotPurchase)
  {
    StepWrites(a, step);
    GrownWeaker(a.ledger, Next(a, step).ledger, (row: Row) => WrittenBy(step, row), NotPurchase);
  }

  lemma GrownTotal(rows: seq<Row>, later: seq<Row>, kept: Row -> bool, weight: Row -> int)
    requires Grown(rows, later, kept) && forall row: Row :: kept(row) ==> weight(row) == 0
    ensures Total(later, weight) == Total(rows, weight)
  {
    var n := |rows|;
    if |later| == n + 1 {
      assert later == rows + [later[n]];
      TotalAppend(rows, later[n], weight);
    } else if |later| == n + 2 {
      assert later == rows + [later[n]] + [later[n + 1]];
      TotalAppend(rows, later[n], weight);
      TotalAppend(rows + [later[n]], later[n + 1], weight);
    } else {
      assert later == rows;
    }
  }

  lemma GrownElsewhere(rows: seq<Row>, later: seq<Row>, ref: Ref)
    requires Grown(rows, later, NotUnder(ref))
    ensures Outstanding(later, ref) == Outstanding(rows, ref) && Finalizers(later, ref) == Finalizers(rows, ref)
    ensures Reserves(later, ref) == Reserves(rows, ref) && LastReserve(later, ref) == LastReserve(rows, ref)
  {
    var n := |rows|;
    if |later| == n + 1 {
      assert later == rows + [later[n]];
      AppendAt(rows, later[n], ref);
    } else if |later| == n + 2 {
      assert later == rows + [later[n]] + [later[n + 1]];
      AppendAt(rows, later[n], ref);
      AppendAt(rows + [later[n]], later[n + 1], ref);
    } else {
      assert later == rows;
    }
  }

  lemma AddKeepsHolds(a: Account, b: Account, row: Row)
    requires HoldsAgree(a)
    requires b.ledger == a.ledger + [row] && b.reserved == a.reserved + HoldMove(row)
    requires row.ref.None? ==> HoldMove(row) == 0
    requires row.ref.Some? ==> Outstanding(a.ledger, row.ref.value) + HoldMove(row) >= 0
    requires row.ref.Some? && row.ref.value.Launch? ==>
               if row.op.Reserve? then Unused(a.ledger, row.ref.value) && row.delta <= 0 else true
    ensures HoldsAgree(b)
  {
    RowMoves(a.ledger, row);
    forall ref: Ref ensures Outstanding(b.ledger, ref) >= 0 && (ref.Launch? ==> LaunchShape(b.ledger, ref)) {
      AddKeepsShape(a, row, ref);
    }
  }

  lemma AddKeepsShape(a: Account, row: Row, ref: Ref)
    requires HoldsAgree(a)
    requires row.ref == Some(ref) ==> Outstanding(a.ledger, ref) + HoldMove(row) >= 0
    requires row.ref == Some(ref) && ref.Launch? && row.op.Reserve? ==> Unused(a.ledger, ref) && row.delta <= 0
    ensures Outstanding(a.ledger + [row], ref) >= 0 && (ref.Launch? ==> LaunchShape(a.ledger + [row], ref))
  {
    AppendAt(a.ledger, row, ref);
    CountsNonNegative(a.ledger, ref);
    assert Outstanding(a.ledger, ref) >= 0;
    if ref.Launch? {
      assert LaunchShape(a.ledger, ref);
      if row.ref == Some(ref) && row.op.Reserve? {
        UnusedSums(a.ledger, ref);
      }
    }
  }

  /** Two rows of one settlement: the charge takes `paid` of the hold, the release the rest. */
  lemma SettlementKeepsHolds(a: Account, b: Account, ref: Ref, paid: nat, estimate: nat, work: Work)
    requires HoldsAgree(a) && paid <= estimate == Outstanding(a.ledger, ref)
    requires b.ledger == SettledRows(a.ledger, paid, estimate, ref, work) && b.reserved == a.reserved - estimate
    ensures HoldsAgree(b)
  {
    var charge, release := PaidRow(paid, ref, work), RestRow(paid, estimate, ref);
    if paid == 0 {
      AddKeepsHolds(a, b, release);
    } else if paid == estimate {
      AddKeepsHolds(a, b, charge);
    } else {
      var charged := a.(reserved := a.reserved - paid, ledger := a.ledger + [charge]);
      AddKeepsHolds(a, charged, charge);
      AppendAt(a.ledger, charge, ref);
      AddKeepsHolds(charged, b, release);
    }
  }

  lemma FinalizeKeepsHolds(a: Account, ref: Ref, estimate: nat, spent: int, work: Work)
    requires HoldsAgree(a) && Allowed(a, Finalizing(ref, estimate, spent, work))
    ensures HoldsAgree(Finalize(a, ref, estimate, spent, work))
    ensures !IsFinalized(a, ref) ==> estimate <= a.reserved
  {
    if !IsFinalized(a, ref) {
      HoldWithinTotal(a.ledger, ref);
      FinalizeRows(a, ref, estimate, spent, work);
      SettlementKeepsHolds(a, Finalize(a, ref, estimate, spent, work), ref, Clamped(spent, estimate), estimate, work);
    }
  }

  lemma RenewKeepsHolds(a: Account, now: int)
    requires HoldsAgree(a)
    ensures HoldsAgree(Renew(a, now))
  {
    RenewRows(a, now);
    if Expired(a) > 0 {
      var swept := a.(ledger := a.ledger + [SweepRow(a)]);
      AddKeepsHolds(a, swept, SweepRow(a));
      AddKeepsHolds(swept, Renew(a, now), GrantRow(a));
    } else {
      AddKeepsHolds(a, Renew(a, now), GrantRow(a));
    }
  }

  function Expired(a: Account): int {
    a.balance - Carry(a)
  }

  function SweepRow(a: Account): Row {
    Row(Expire, -Expired(a), None)
  }

  function GrantRow(a: Account): Row {
    Row(Grant, a.allowance, None)
  }

  /** What a renewal writes. */
  lemma RenewRows(a: Account, now: int)
    ensures var b := Renew(a, now);
            && b.ledger == (if Expired(a) > 0 then a.ledger + [SweepRow(a)] + [GrantRow(a)] else a.ledger + [GrantRow(a)])
            && b.balance == Carry(a) + a.allowance && b.reserved == a.reserved && b.resetsAt == Some(now + RENEWAL_PERIOD)
    ensures Expired(a) >= 0
  {
  }

  lemma ReserveKeepsHolds(a: Account, amount: nat, ref: Ref)
    requires HoldsAgree(a) && Allowed(a, Reserving(amount, ref))
    ensures HoldsAgree(ReserveHold(a, amount, ref))
  {
    if CanReserve(a, amount) {
      AddKeepsHolds(a, ReserveHold(a, amount, ref), Row(Operation.Reserve, -(amount as int), Some(ref)));
    }
  }

  lemma ReleaseKeepsHolds(a: Account, amount: nat, ref: Ref)
    requires HoldsAgree(a) && amount <= Outstanding(a.ledger, ref)
    ensures HoldsAgree(ReleaseHold(a, amount, ref)) && amount <= a.reserved
  {
    HoldWithinTotal(a.ledger, ref);
    AddKeepsHolds(a, ReleaseHold(a, amount, ref), Row(Operation.Release, amount, Some(ref)));
  }

  lemma ChargeKeepsHolds(a: Account, amount: nat, ref: Ref, work: Work)
    requires HoldsAgree(a) && amount <= Outstanding(a.ledger, ref)
    ensures HoldsAgree(ChargeHold(a, amount, ref, work)) && amount <= a.reserved
  {
    HoldWithinTotal(a.ledger, ref);
    AddKeepsHolds(a, ChargeHold(a, amount, ref, work), Row(Charge(work), -(amount as int), Some(ref)));
  }

  lemma CancelKeepsHolds(a: Account, ref: Ref)
    requires HoldsAgree(a) && ref.Launch?
    ensures HoldsAgree(ReleaseIfHeld(a, ref)) && ClampIdle(a, ReleasingIfHeld(ref)) && ReleaseIfHeld(a, ref).reserved <= a.reserved
  {
    var last := LastReserve(a.ledger, ref);
    if IsHeld(a, ref) && last.Some? {
      HeldIsOutstanding(a, ref);
      HoldWithinTotal(a.ledger, ref);
      AddKeepsHolds(a, ReleaseIfHeld(a, ref), Row(Operation.Release, -last.value.delta, Some(ref)));
    }
  }

  /** Behind the guard of release_reservation_if_held, what was reserved is what is outstanding. */
  lemma HeldIsOutstanding(a: Account, ref: Ref)
    requires HoldsAgree(a) && ref.Launch? && IsHeld(a, ref)
    ensures LastReserve(a.ledger, ref).Some? && Outstanding(a.ledger, ref) == -LastReserve(a.ledger, ref).value.delta >= 0
  {
    CountsNonNegative(a.ledger, ref);
    assert LaunchShape(a.ledger, ref);
  }

  /** Every allowed step, renewal included, keeps `reserved` equal to the sum of outstanding holds, overdraws no ref,
      and never meets the clamp on `reserved`. */
  lemma StepKeepsHolds(a: Account, step: Step)
    requires HoldsAgree(a) && Allowed(a, step)
    ensures HoldsAgree(Next(a, step))
    ensures step.Releasing? || step.Charging? ==> step.amount <= a.reserved
    ensures step.Finalizing? && !IsFinalized(a, step.ref) ==> step.estimate <= a.reserved
    ensures step.ReleasingIfHeld? ==> ClampIdle(a, step)
  {
    match step
    case Reserving(amount, ref) => ReserveKeepsHolds(a, amount, ref);
    case Releasing(amount, ref) => ReleaseKeepsHolds(a, amount, ref);
    case Charging(amount, ref, work) => ChargeKeepsHolds(a, amount, ref, work);
    case ReleasingIfHeld(ref) => CancelKeepsHolds(a, ref);
    case Finalizing(ref, estimate, spent, work) => FinalizeKeepsHolds(a, ref, estimate, spent, work);
    case Granting(amount) => AddKeepsHolds(a, GrantCredits(a, amount), Row(Grant, amount, None));
    case Purchasing(amount, payment) =>
      AddKeepsHolds(a, PurchaseCredits(a, amount, payment), Row(Purchase, amount, Some(Payment(payment))));
    case Renewing(now) => RenewKeepsHolds(a, now);
  }

  lemma GapAppend(a: Account, b: Account, row: Row)
    requires b.ledger == a.ledger + [row]
    ensures Gap(b) - Gap(a) == b.balance - a.balance - BalanceMove(row)
  {
    TotalAppend(a.ledger, row, BalanceMove);
  }

  lemma FinalizeGap(a: Account, ref: Ref, estimate: nat, spent: int, work: Work)
    requires a.balance >= 0
    ensures Gap(Finalize(a, ref, estimate, spent, work)) == Gap(a) + Shortfall(a, Finalizing(ref, estimate, spent, work))
  {
    if !IsFinalized(a, ref) {
      FinalizeRows(a, ref, estimate, spent, work);
      SettledRowsMove(a.ledger, Clamped(spent, estimate), estimate, ref, work);
    }
  }

  lemma RenewGap(a: Account, now: int)
    ensures Gap(Renew(a, now)) == Gap(a)
  {
    RenewRows(a, now);
    RowMoves(a.ledger, GrantRow(a));
    RowMoves(a.ledger, SweepRow(a));
    RowMoves(a.ledger + [SweepRow(a)], GrantRow(a));
  }

  lemma HoldStepGap(a: Account, step: Step)
    requires step.Reserving? || step.Releasing? || step.ReleasingIfHeld?
    ensures Gap(Next(a, step)) == Gap(a)
  {
    var b := Next(a, step);
    if step.Reserving? && CanReserve(a, step.amount) {
      GapAppend(a, b, Row(Operation.Reserve, -(step.amount as int), Some(step.ref)));
    } else if step.Releasing? {
      GapAppend(a, b, Row(Operation.Release, step.amount, Some(step.ref)));
    } else if step.ReleasingIfHeld? && IsHeld(a, step.ref) && LastReserve(a.ledger, step.ref).Some? {
      GapAppend(a, b, Row(Operation.Release, -LastReserve(a.ledger, step.ref).value.delta, Some(step.ref)));
    }
  }

  /** The balance moves away from its ledger sum by exactly the part of a charge it could not cover.
      This needs no invariant: it is true of every account and every step. */
  lemma StepGap(a: Account, step: Step)
    requires step.Charging? || step.Finalizing? ==> a.balance >= 0
    ensures Gap(Next(a, step)) == Gap(a) + Shortfall(a, step)
  {
    match step
    case Finalizing(ref, estimate, spent, work) => FinalizeGap(a, ref, estimate, spent, work);
    case Renewing(now) => RenewGap(a, now);
    case Charging(amount, ref, work) => GapAppend(a, ChargeHold(a, amount, ref, work), Row(Charge(work), -(amount as int), Some(ref)));
    case Granting(amount) => GapAppend(a, GrantCredits(a, amount), Row(Grant, amount, None));
    case Purchasing(amount, payment) => GapAppend(a, PurchaseCredits(a, amount, payment), Row(Purchase, amount, Some(Payment(payment))));
    case _ => HoldStepGap(a, step);
  }

  lemma RowMoves(rows: seq<Row>, row: Row)
    ensures BalanceSum(rows + [row]) - BalanceSum(rows) == BalanceMove(row)
    ensures HeldSum(rows + [row]) - HeldSum(rows) == if row.ref.Some? then HoldMove(row) else 0
  {
    TotalAppend(rows, row, BalanceMove);
    TotalAppend(rows, row, OffRefs({}));
  }

  /** A finalizer call that is not a repeat moves the clamped `spent` out of the balance and the whole estimate out of the holds. */
  lemma FinalizeMoves(a: Account, ref: Ref, estimate: nat, spent: int, work: Work)
    requires !IsFinalized(a, ref)
    ensures var rows := Finalize(a, ref, estimate, spent, work).ledger;
            && BalanceSum(a.ledger) - BalanceSum(rows) == (if spent < 0 then 0 else if spent > estimate then estimate else spent)
            && HeldSum(a.ledger) - HeldSum(rows) == estimate
  {
    FinalizeRows(a, ref, estimate, spent, work);
    SettledRowsMove(a.ledger, Clamped(spent, estimate), estimate, ref, work);
  }

  /** The rows a settlement writes: the charge if there is one, then the release of the rest unless all was charged. */
  function SettledRows(rows: seq<Row>, paid: nat, estimate: nat, ref: Ref, work: Work): seq<Row> {
    if paid == 0 then rows + [RestRow(paid, estimate, ref)]
    else if paid == estimate then rows + [PaidRow(paid, ref, work)]
    else rows + [PaidRow(paid, ref, work)] + [RestRow(paid, estimate, ref)]
  }

  function PaidRow(paid: nat, ref: Ref, work: Work): Row {
    Row(Charge(work), -(paid as int), Some(ref))
  }

  function RestRow(paid: nat, estimate: nat, ref: Ref): Row {
    Row(Operation.Release, estimate - paid, Some(ref))
  }

  lemma FinalizeRows(a: Account, ref: Ref, estimate: nat, spent: int, work: Work)
    requires !IsFinalized(a, ref)
    ensures var b := Finalize(a, ref, estimate, spent, work); var paid := Clamped(spent, estimate);
            && b.ledger == SettledRows(a.ledger, paid, estimate, ref, work)
            && b.balance == Max(0, a.balance - paid) && b.reserved == Max(0, a.reserved - estimate)
  {
  }

  lemma SettledRowsMove(rows: seq<Row>, paid: nat, estimate: nat, ref: Ref, work: Work)
    requires paid <= estimate
    ensures BalanceSum(rows) - BalanceSum(SettledRows(rows, paid, estimate, ref, work)) == paid
    ensures HeldSum(rows) - HeldSum(SettledRows(rows, paid, estimate, ref, work)) == estimate
  {
    var charge, release := PaidRow(paid, ref, work), RestRow(paid, estimate, ref);
    if paid == 0 {
      RowMoves(rows, release);
    } else if paid == estimate {
      RowMoves(rows, charge);
    } else {
      RowMoves(rows, charge);
      RowMoves(rows + [charge], release);
    }
  }

  /** A renewal leaves at most half an allowance of the old balance, plus one allowance, and touches no hold. */
  lemma RenewMoves(a: Account, now: int)
    requires a.balance >= 0
    ensures var b := Renew(a, now);
            && BalanceSum(b.ledger) - BalanceSum(a.ledger) == b.balance - a.balance
            && HeldSum(b.ledger) == HeldSum(a.ledger) && b.reserved == a.reserved
            && b.balance == a.allowance + (if a.balance < a.allowance / 2 then a.balance else a.allowance / 2)
            && a.allowance <= b.balance <= a.allowance + a.allowance / 2
            && b.resetsAt == Some(now + RENEWAL_PERIOD)
  {
    RenewGap(a, now);
    RenewRows(a, now);
    RowMoves(a.ledger, GrantRow(a));
    RowMoves(a.ledger, SweepRow(a));
    RowMoves(a.ledger + [SweepRow(a)], GrantRow(a));
  }

  /** What every other step writes, read back from the ledger as credits moved and credits held. */
  lemma SingleRowMoves(a: Account, step: Step)
    requires !step.Finalizing? && !step.Renewing? && !step.ReleasingIfHeld?
    ensures BalanceSum(Next(a, step).ledger) - BalanceSum(a.ledger) ==
            match step
            case Granting(amount) => amount
            case Purchasing(amount, _) => amount
            case Charging(amount, _, _) => -(amount as int)
            case _ => 0
    ensures HeldSum(Next(a, step).ledger) - HeldSum(a.ledger) ==
            match step
            case Reserving(amount, _) => if amount <= a.balance - a.reserved then amount else 0
            case Releasing(amount, _) => -(amount as int)
            case Charging(amount, _, _) => -(amount as int)
            case _ => 0
  {
    RowMoves(a.ledger, RowOf(step));
    OneRow(a, step);
  }

  function RowOf(step: Step): Row
    requires !step.Finalizing? && !step.Renewing? && !step.ReleasingIfHeld?
  {
    match step
    case Reserving(amount, ref) => Row(Operation.Reserve, -(amount as int), Some(ref))
    case Releasing(amount, ref) => Row(Operation.Release, amount, Some(ref))
    case Charging(amount, ref, work) => Row(Charge(work), -(amount as int), Some(ref))
    case Granting(amount) => Row(Grant, amount, None)
    case Purchasing(amount, payment) => Row(Purchase, amount, Some(Payment(payment)))
  }

  lemma OneRow(a: Account, step: Step)
    requires !step.Finalizing? && !step.Renewing? && !step.ReleasingIfHeld?
    ensures Next(a, step).ledger == if step.Reserving? && !CanReserve(a, step.amount) then a.ledger else a.ledger + [RowOf(step)]
  {
  }

  /** Without renewals the account also stays solvent and explained by its ledger, and no clamp acts. */
  lemma StepKeepsSolvent(a: Account, step: Step)
    requires HoldsAgree(a) && Solvent(a) && Allowed(a, step) && !step.Renewing?
    ensures HoldsAgree(Next(a, step)) && Solvent(Next(a, step)) && ClampIdle(a, step)
  {
    StepKeepsHolds(a, step);
    NonNegativeOff(a.ledger, {});
    NonNegativeOff(Next(a, step).ledger, {});
    StepGap(a, step);
    if step.ReleasingIfHeld? {
      CancelKeepsHolds(a, step.ref);
    }
    WithinReserved(a, step);
  }

  /** What a step settles was held, so it is also within the balance. */
  lemma WithinReserved(a: Account, step: Step)
    requires 0 <= a.reserved <= a.balance && !step.Renewing?
    requires step.Releasing? || step.Charging? ==> step.amount <= a.reserved
    requires step.Finalizing? && !IsFinalized(a, step.ref) ==> step.estimate <= a.reserved
    requires step.ReleasingIfHeld? ==> ClampIdle(a, step) && Next(a, step).reserved <= a.reserved
    ensures ClampIdle(a, step) && Shortfall(a, step) == 0 && Next(a, step).reserved <= Next(a, step).balance
  {
    if step.Finalizing? && !IsFinalized(a, step.ref) {
      FinalizeRows(a, step.ref, step.estimate, step.spent, step.work);
    }
  }

  /** release_credits is safe exactly within what is still held: it keeps the holds right if and only if its amount does not
      exceed what is outstanding under its ref. */
  lemma ReleasingIsSafeIff(a: Account, amount: nat, ref: Ref)
    requires HoldsAgree(a)
    ensures HoldsAgree(ReleaseHold(a, amount, ref)) <==> amount <= Outstanding(a.ledger, ref)
  {
    var row := Row(Operation.Release, amount, Some(ref));
    if amount <= Outstanding(a.ledger, ref) {
      ReleaseKeepsHolds(a, amount, ref);
    } else {
      AppendAt(a.ledger, row, ref);
      assert Outstanding(ReleaseHold(a, amount, ref).ledger, ref) < 0;
    }
  }

  /** The guard of release_reservation_if_held, a RESERVE row more than other rows, makes releasing the reserved amount safe. */
  lemma HeldReleaseIsSafe(a: Account, ref: Ref)
    requires HoldsAgree(a) && ref.Launch? && IsHeld(a, ref)
    ensures LastReserve(a.ledger, ref).Some? && Outstanding(a.ledger, ref) == -LastReserve(a.ledger, ref).value.delta >= 0
    ensures HoldsAgree(ReleaseHold(a, -LastReserve(a.ledger, ref).value.delta, ref))
  {
    HeldIsOutstanding(a, ref);
    ReleaseKeepsHolds(a, Outstanding(a.ledger, ref), ref);
  }

  // ----- whole runs -----

  /** In every disciplined run, in every interleaving, renewals included: `reserved` is the sum of the outstanding holds,
      the balance is never negative and never below its ledger sum. */
  lemma {:induction false} HoldsAgreeInEveryRun(a: Account, steps: seq<Step>)
    requires HoldsAgree(a) && Solvent(a) && AllAllowed(a, steps)
    ensures HoldsAgree(Run(a, steps))
    ensures Run(a, steps).reserved == HeldSum(Run(a, steps).ledger) >= 0
    ensures Run(a, steps).balance >= 0 && Run(a, steps).balance >= BalanceSum(Run(a, steps).ledger)
  {
    if steps == [] {
      NonNegativeOff(a.ledger, {});
    } else {
      var before, step := Run(a, steps[..|steps| - 1]), steps[|steps| - 1];
      HoldsAgreeInEveryRun(a, steps[..|steps| - 1]);
      StepKeepsBounds(before, step);
    }
  }

  lemma StepKeepsBounds(a: Account, step: Step)
    requires HoldsAgree(a) && Allowed(a, step) && a.balance >= 0 && a.balance >= BalanceSum(a.ledger)
    ensures var b := Next(a, step);
            HoldsAgree(b) && 0 <= b.reserved == HeldSum(b.ledger) && 0 <= b.balance && BalanceSum(b.ledger) <= b.balance
  {
    StepKeepsHolds(a, step);
    StepGap(a, step);
    NonNegativeOff(Next(a, step).ledger, {});
    BalanceNonNegative(a, step);
  }

  lemma BalanceNonNegative(a: Account, step: Step)
    requires a.balance >= 0
    ensures Next(a, step).balance >= 0
  {
    if step.Finalizing? && !IsFinalized(a, step.ref) {
      FinalizeRows(a, step.ref, step.estimate, step.spent, step.work);
    }
  }

  /** No step of the run meets a max(0, ...) that changes a value. */
  predicate ClampsIdle(a: Account, steps: seq<Step>) {
    steps == [] || (ClampsIdle(a, steps[..|steps| - 1]) && ClampIdle(Run(a, steps[..|steps| - 1]), steps[|steps| - 1]))
  }

  /** In every disciplined run without renewals, in every interleaving: 0 <= reserved <= balance, the balance is the
      ledger sum without RESERVE and RELEASE rows, and no max(0, ...) ever changes a value. */
  lemma {:induction false} SolventInEveryRun(a: Account, steps: seq<Step>)
    requires HoldsAgree(a) && Solvent(a) && AllAllowed(a, steps) && NoRenewal(steps)
    ensures HoldsAgree(Run(a, steps)) && Solvent(Run(a, steps)) && ClampsIdle(a, steps)
    ensures 0 <= Run(a, steps).reserved == HeldSum(Run(a, steps).ledger)
    ensures Run(a, steps).reserved <= Run(a, steps).balance == BalanceSum(Run(a, steps).ledger)
  {
    if steps == [] {
      NonNegativeOff(a.ledger, {});
    } else {
      var before, step := Run(a, steps[..|steps| - 1]), steps[|steps| - 1];
      SolventInEveryRun(a, steps[..|steps| - 1]);
      StepKeepsSolvent(before, step);
      NonNegativeOff(Next(before, step).ledger, {});
    }
  }

  /** The uncovered parts of all charges of a run. */
  function Shortfalls(a: Account, steps: seq<Step>): nat {
    if steps == [] then 0
    else Shortfalls(a, steps[..|steps| - 1]) + Shortfall(Run(a, steps[..|steps| - 1]), steps[|steps| - 1])
  }

  /** So with renewals the ledger explains the balance exactly when every charge found a balance that covered it. */
  lemma {:induction false} LedgerExplainsBalanceIff(a: Account, steps: seq<Step>)
    requires HoldsAgree(a) && Solvent(a) && AllAllowed(a, steps)
    ensures Gap(Run(a, steps)) == Shortfalls(a, steps)
    ensures Run(a, steps).balance == BalanceSum(Run(a, steps).ledger) <==> Shortfalls(a, steps) == 0
  {
    if steps != [] {
      LedgerExplainsBalanceIff(a, steps[..|steps| - 1]);
      HoldsAgreeInEveryRun(a, steps[..|steps| - 1]);
      StepGap(Run(a, steps[..|steps| - 1]), steps[|steps| - 1]);
    }
  }

  /** A fresh account starts in the invariant. */
  lemma NewAccountIsSound()
    ensures HoldsAgree(NewAccount()) && Solvent(NewAccount())
  {
    forall ref ensures Outstanding([], ref) == 0 && Reserves([], ref) == 0 && Finalizers([], ref) == 0 {
      UnusedSums([], ref);
    }
  }

  /** A renewal ignores holds: `reserved` may exceed `balance` afterwards, and then a charge meets the clamp and the
      ledger no longer explains the balance. It happens exactly when the holds exceed carry plus allowance. */
  lemma RenewalStrandsHolds(a: Account, now: int)
    requires HoldsAgree(a) && Solvent(a)
    ensures Solvent(Renew(a, now)) <==> a.reserved <= Min(a.balance, a.allowance / 2) + a.allowance
    ensures Gap(Renew(a, now)) == 0
  {
    StepGap(a, Renewing(now));
  }

  lemma RenewKeepsRefs(a: Account, now: int, ref: Ref)
    requires !ref.Payment?
    ensures Outstanding(Renew(a, now).ledger, ref) == Outstanding(a.ledger, ref)
    ensures Finalizers(Renew(a, now).ledger, ref) == Finalizers(a.ledger, ref)
  {
    OtherRows(a, Renewing(now), ref);
    GrownElsewhere(a.ledger, Renew(a, now).ledger, ref);
  }

  /** A hold charged in full after a renewal is under-paid by what carry plus allowance cannot cover, and by exactly that
      much the balance then exceeds its ledger. */
  lemma ChargeAfterRenewal(a: Account, now: int, ref: Ref, work: Work)
    requires HoldsAgree(a) && Solvent(a) && ref.Launch? && !IsFinalized(a, ref)
    ensures var estimate := Outstanding(a.ledger, ref);
            && Allowed(Renew(a, now), Finalizing(ref, estimate, estimate, work))
            && Gap(Finalize(Renew(a, now), ref, estimate, estimate, work)) == Max(0, estimate - (Carry(a) + a.allowance))
  {
    RenewKeepsRefs(a, now, ref);
    NonNegativeOff(a.ledger, {});
    RenewGap(a, now);
    var estimate: nat := Outstanding(a.ledger, ref);
    FinalizeGap(Renew(a, now), ref, estimate, estimate, work);
  }

  /** For example, a renewal that leaves 45 credits under a hold of 90. */
  lemma RenewalUnderAHold(now: int)
    ensures var renewed := Renew(Account(100, 90, false, 30, None, []), now); renewed.balance == 45 && renewed.reserved == 90
  {
  }

  // ----- the columns of the account follow its ledger -----

  /** `reserved` is what it was plus what the rows since then hold, cut off at zero. */
  ghost predicate Follows(a: Account, b: Account) {
    var value := a.reserved + HeldSum(b.ledger) - HeldSum(a.ledger);
    b.reserved == if value < 0 then 0 else value
  }

  /** After any step, allowed or not, `reserved` has followed the ledger. */
  lemma ReservedFollowsLedger(a: Account, step: Step)
    requires a.reserved >= 0 && (step.ReleasingIfHeld? && LastReserve(a.ledger, step.ref).Some? ==> LastReserve(a.ledger, step.ref).value.delta <= 0)
    ensures Follows(a, Next(a, step))
  {
    if step.Finalizing? {
      FinalizeReserved(a, step.ref, step.estimate, step.spent, step.work);
    } else if step.Renewing? {
      RenewReserved(a, step.now);
    } else if step.ReleasingIfHeld? {
      CancelReserved(a, step.ref);
    } else {
      OneRowReserved(a, step);
    }
  }

  lemma FinalizeReserved(a: Account, ref: Ref, estimate: nat, spent: int, work: Work)
    requires a.reserved >= 0
    ensures Follows(a, Finalize(a, ref, estimate, spent, work))
  {
    if !IsFinalized(a, ref) {
      FinalizeRows(a, ref, estimate, spent, work);
      SettledRowsMove(a.ledger, Clamped(spent, estimate), estimate, ref, work);
    }
  }

  lemma RenewReserved(a: Account, now: int)
    requires a.reserved >= 0
    ensures Follows(a, Renew(a, now))
  {
    RenewRows(a, now);
    RowMoves(a.ledger, GrantRow(a));
    RowMoves(a.ledger, SweepRow(a));
    RowMoves(a.ledger + [SweepRow(a)], GrantRow(a));
  }

  lemma CancelReserved(a: Account, ref: Ref)
    requires a.reserved >= 0 && (LastReserve(a.ledger, ref).Some? ==> LastReserve(a.ledger, ref).value.delta <= 0)
    ensures Follows(a, ReleaseIfHeld(a, ref))
  {
    if IsHeld(a, ref) && LastReserve(a.ledger, ref).Some? {
      RowMoves(a.ledger, Row(Operation.Release, -LastReserve(a.ledger, ref).value.delta, Some(ref)));
    }
  }

  lemma RowFollows(a: Account, b: Account, row: Row)
    requires b.ledger == a.ledger + [row]
    requires b.reserved == Max(0, a.reserved + if row.ref.Some? then HoldMove(row) else 0)
    ensures Follows(a, b)
  {
    RowMoves(a.ledger, row);
  }

  lemma OneRowReserved(a: Account, step: Step)
    requires a.reserved >= 0 && !step.Finalizing? && !step.Renewing? && !step.ReleasingIfHeld?
    ensures Follows(a, Next(a, step))
  {
    match step
    case Reserving(amount, ref) =>
      if CanReserve(a, amount) {
        RowFollows(a, ReserveHold(a, amount, ref), RowOf(step));
      }
    case Releasing(amount, ref) => RowFollows(a, ReleaseHold(a, amount, ref), RowOf(step));
    case Charging(amount, ref, work) => RowFollows(a, ChargeHold(a, amount, ref, work), RowOf(step));
    case Granting(amount) => RowFollows(a, GrantCredits(a, amount), RowOf(step));
    case Purchasing(amount, payment) => RowFollows(a, PurchaseCredits(a, amount, payment), RowOf(step));
  }

  /** What ClampIdle means: balance and `reserved` both move by exactly what the new rows say. */
  lemma ClampIdleIff(a: Account, step: Step)
    requires a.reserved >= 0 && a.balance >= 0
    requires step.ReleasingIfHeld? && LastReserve(a.ledger, step.ref).Some? ==> LastReserve(a.ledger, step.ref).value.delta <= 0
    ensures var b := Next(a, step);
            ClampIdle(a, step) <==> b.reserved - a.reserved == HeldSum(b.ledger) - HeldSum(a.ledger)
                                    && b.balance - a.balance == BalanceSum(b.ledger) - BalanceSum(a.ledger)
  {
    StepGap(a, step);
    ReservedFollowsLedger(a, step);
    HeldMoves(a, step);
  }

  /** How much a settling step takes out of the holds. */
  lemma HeldMoves(a: Account, step: Step)
    ensures HeldSum(a.ledger) - HeldSum(Next(a, step).ledger) ==
            match step
            case Reserving(amount, _) => if CanReserve(a, amount) then -(amount as int) else 0
            case Releasing(amount, _) => amount
            case Charging(amount, _, _) => amount
            case ReleasingIfHeld(ref) => if IsHeld(a, ref) && LastReserve(a.ledger, ref).Some? then -LastReserve(a.ledger, ref).value.delta else 0
            case Finalizing(ref, estimate, _, _) => if IsFinalized(a, ref) then 0 else estimate
            case _ => 0
  {
    match step
    case Finalizing(ref, estimate, spent, work) =>
      if !IsFinalized(a, ref) {
        FinalizeMoves(a, ref, estimate, spent, work);
      }
    case Renewing(now) => RenewHeld(a, now);
    case ReleasingIfHeld(ref) =>
      if IsHeld(a, ref) && LastReserve(a.ledger, ref).Some? {
        RowMoves(a.ledger, Row(Operation.Release, -LastReserve(a.ledger, ref).value.delta, Some(ref)));
      }
    case _ => SingleRowMoves(a, step);
  }

  lemma RenewHeld(a: Account, now: int)
    ensures HeldSum(Renew(a, now).ledger) == HeldSum(a.ledger)
  {
    RenewRows(a, now);
    RowMoves(a.ledger, GrantRow(a));
    RowMoves(a.ledger, SweepRow(a));
    RowMoves(a.ledger + [SweepRow(a)], GrantRow(a));
  }

  /** The plan is nobody's business but the subscription's: no step changes it, and only a renewal moves the period. */
  lemma PlanStays(a: Account, step: Step)
    ensures var b := Next(a, step);
            b.free == a.free && b.allowance == a.allowance && b.resetsAt == if step.Renewing? then Some(step.now + 30 * 24 * 3600) else a.resetsAt
  {
  }
}
