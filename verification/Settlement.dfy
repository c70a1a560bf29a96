/** Exactly-once settlement of one launch, whatever else happens to the account in between. */
module Settlement {
  import opened Common
  import opened Ledger
  import opened Billing

  function ChargedRow(ref: Ref): Row -> int {
    (row: Row) => if row.ref == Some(ref) && row.op.Charge? then -row.delta else 0
  }

  function ReleasedRow(ref: Ref): Row -> int {
    (row: Row) => if row.ref == Some(ref) && row.op.Release? then row.delta else 0
  }

  function Charged(a: Account, ref: Ref): int {
    Total(a.ledger, ChargedRow(ref))
  }

  function Released(a: Account, ref: Ref): int {
    Total(a.ledger, ReleasedRow(ref))
  }

  /** A call that may settle `ref`: the finalizer, with any `spent`, or the cancel path. */
  predicate Settles(step: Step, ref: Ref, amount: nat) {
    || (step.Finalizing? && step.ref == ref && step.estimate == amount)
    || step == ReleasingIfHeld(ref)
  }

  /** Any other step of the account that does not name `ref`, disciplined or not. */
  predicate Elsewhere(step: Step, ref: Ref) {
    && !ref.Payment?
    && (step.Granting? || step.Purchasing? || step.Renewing? || step.ref != ref)
  }

  predicate Mixed(steps: seq<Step>, ref: Ref, amount: nat) {
    forall step :: step in steps ==> Settles(step, ref, amount) || Elsewhere(step, ref)
  }

  /** Where the first settling call sits, or |steps|. */
  function FirstSettle(steps: seq<Step>, ref: Ref, amount: nat): (k: nat)
    ensures k <= |steps|
    ensures k < |steps| ==> Settles(steps[k], ref, amount)
    ensures forall i :: 0 <= i < k ==> !Settles(steps[i], ref, amount)
  {
    if steps == [] then 0
    else
      var k := FirstSettle(steps[..|steps| - 1], ref, amount);
      if k < |steps| - 1 || Settles(steps[|steps| - 1], ref, amount) then k else |steps|
  }

  /** What the first settling call charges. */
  function PriceOf(step: Step, amount: nat): nat {
    if step.Finalizing? then Clamped(step.spent, amount) else 0
  }

  /** The ledger facts about `ref` that settlement depends on. */
  ghost predicate Books(a: Account, ref: Ref, amount: nat, charged: int, released: int, settled: bool) {
    && Reserves(a.ledger, ref) == 1
    && LastReserve(a.ledger, ref) == Some(Row(Operation.Reserve, -(amount as int), Some(ref)))
    && Charged(a, ref) == charged && Released(a, ref) == released && Outstanding(a.ledger, ref) == amount - charged - released
    && (if settled then Finalizers(a.ledger, ref) >= 1 else Finalizers(a.ledger, ref) == 0)
  }

  lemma AddBooks(a: Account, b: Account, row: Row, ref: Ref)
    requires b.ledger == a.ledger + [row]
    ensures Charged(b, ref) == Charged(a, ref) + ChargedRow(ref)(row)
    ensures Released(b, ref) == Released(a, ref) + ReleasedRow(ref)(row)
    ensures Outstanding(b.ledger, ref) == Outstanding(a.ledger, ref) + (if row.ref == Some(ref) then HoldMove(row) else 0)
    ensures Reserves(b.ledger, ref) == Reserves(a.ledger, ref) + CountOf(ref, true)(row)
    ensures Finalizers(b.ledger, ref) == Finalizers(a.ledger, ref) + CountOf(ref, false)(row)
    ensures LastReserve(b.ledger, ref) == if row.ref == Some(ref) && row.op.Reserve? then Some(row) else LastReserve(a.ledger, ref)
  {
    TotalAppend(a.ledger, row, ChargedRow(ref));
    TotalAppend(a.ledger, row, ReleasedRow(ref));
    AppendAt(a.ledger, row, ref);
  }

  /** A successful reservation under a fresh ref opens the books with nothing settled. */
  lemma ReserveOpensBooks(a: Account, ref: Ref, amount: nat)
    requires Unused(a.ledger, ref) && CanReserve(a, amount)
    ensures Books(ReserveHold(a, amount, ref), ref, amount, 0, 0, false)
  {
    UnusedSums(a.ledger, ref);
    TotalZero(a.ledger, ChargedRow(ref));
    TotalZero(a.ledger, ReleasedRow(ref));
    AddBooks(a, ReserveHold(a, amount, ref), Row(Operation.Reserve, -(amount as int), Some(ref)), ref);
  }

  lemma OtherRowKeepsBooks(a: Account, b: Account, row: Row, ref: Ref, amount: nat, charged: int, released: int, settled: bool)
    requires Books(a, ref, amount, charged, released, settled) && b.ledger == a.ledger + [row] && row.ref != Some(ref)
    ensures Books(b, ref, amount, charged, released, settled)
  {
    AddBooks(a, b, row, ref);
  }

  lemma TwoOthersKeepBooks(a: Account, b: Account, row: Row, next: Row, ref: Ref, amount: nat, charged: int, released: int, settled: bool)
    requires Books(a, ref, amount, charged, released, settled)
    requires b.ledger == a.ledger + [row] + [next] && row.ref != Some(ref) && next.ref != Some(ref)
    ensures Books(b, ref, amount, charged, released, settled)
  {
    var mid := a.(ledger := a.ledger + [row]);
    OtherRowKeepsBooks(a, mid, row, ref, amount, charged, released, settled);
    OtherRowKeepsBooks(mid, b, next, ref, amount, charged, released, settled);
  }

  lemma OtherRowsKeepBooks(a: Account, b: Account, ref: Ref, amount: nat, charged: int, released: int, settled: bool)
    requires Books(a, ref, amount, charged, released, settled)
    requires Grown(a.ledger, b.ledger, NotUnder(ref))
    ensures Books(b, ref, amount, charged, released, settled)
  {
    var n := |a.ledger|;
    if |b.ledger| == n + 1 {
      assert b.ledger == a.ledger + [b.ledger[n]];
      OtherRowKeepsBooks(a, b, b.ledger[n], ref, amount, charged, released, settled);
    } else if |b.ledger| == n + 2 {
      assert b.ledger == a.ledger + [b.ledger[n]] + [b.ledger[n + 1]];
      TwoOthersKeepBooks(a, b, b.ledger[n], b.ledger[n + 1], ref, amount, charged, released, settled);
    } else {
      assert b.ledger == a.ledger;
    }
  }

  lemma ElsewhereKeepsBooks(a: Account, step: Step, ref: Ref, amount: nat, charged: int, released: int, settled: bool)
    requires Books(a, ref, amount, charged, released, settled) && Elsewhere(step, ref)
    ensures Books(Next(a, step), ref, amount, charged, released, settled)
  {
    OtherRows(a, step, ref);
    OtherRowsKeepBooks(a, Next(a, step), ref, amount, charged, released, settled);
  }

  /** The first settling call splits the whole hold into charge and release and leaves at least one finalizer row. */
  lemma FirstCallSettles(a: Account, step: Step, ref: Ref, amount: nat)
    requires Books(a, ref, amount, 0, 0, false) && Settles(step, ref, amount)
    ensures var paid := PriceOf(step, amount); Books(Next(a, step), ref, amount, paid, amount - paid, true)
    ensures Next(a, step) != a
  {
    if step.Finalizing? {
      FinalizeRows(a, ref, amount, step.spent, step.work);
      FirstSettlement(a, Next(a, step), PriceOf(step, amount), amount, ref, step.work);
    } else {
      AddBooks(a, Next(a, step), Row(Operation.Release, amount, Some(ref)), ref);
    }
  }

  lemma FirstSettlement(a: Account, b: Account, paid: nat, amount: nat, ref: Ref, work: Work)
    requires Books(a, ref, amount, 0, 0, false) && paid <= amount && b.ledger == SettledRows(a.ledger, paid, amount, ref, work)
    ensures Books(b, ref, amount, paid, amount - paid, true) && b != a
  {
    var charge, release := PaidRow(paid, ref, work), RestRow(paid, amount, ref);
    if paid == 0 {
      AddBooks(a, b, release, ref);
    } else if paid == amount {
      AddBooks(a, b, charge, ref);
    } else {
      var mid := a.(ledger := a.ledger + [charge]);
      AddBooks(a, mid, charge, ref);
      AddBooks(mid, b, release, ref);
    }
  }

  /** Once settled, every further finalizer or cancel call changes nothing at all. */
  lemma LaterCallsAreNoOps(a: Account, step: Step, ref: Ref, amount: nat, charged: int, released: int)
    requires Books(a, ref, amount, charged, released, true) && Settles(step, ref, amount)
    ensures Next(a, step) == a
  {
  }

  /** For a fresh ref, any mix of repeated finalizer calls, with any `spent`, cancel calls and steps elsewhere on the
      account settles the hold exactly once: charged plus released is the amount held, split by the first call. */
  lemma {:induction false} SettledExactlyOnce(a: Account, ref: Ref, amount: nat, steps: seq<Step>)
    requires Unused(a.ledger, ref) && CanReserve(a, amount) && Mixed(steps, ref, amount)
    ensures var k := FirstSettle(steps, ref, amount);
            var b := Run(ReserveHold(a, amount, ref), steps);
            if k == |steps| then Books(b, ref, amount, 0, 0, false)
            else var paid := PriceOf(steps[k], amount); Books(b, ref, amount, paid, amount - paid, true)
  {
    var held := ReserveHold(a, amount, ref);
    if steps == [] {
      ReserveOpensBooks(a, ref, amount);
    } else {
      var rest, step := steps[..|steps| - 1], steps[|steps| - 1];
      SettledExactlyOnce(a, ref, amount, rest);
      var before, k := Run(held, rest), FirstSettle(rest, ref, amount);
      if Settles(step, ref, amount) {
        if k == |rest| {
          FirstCallSettles(before, step, ref, amount);
        } else {
          var paid := PriceOf(rest[k], amount);
          LaterCallsAreNoOps(before, step, ref, amount, paid, amount - paid);
        }
      } else if k == |rest| {
        ElsewhereKeepsBooks(before, step, ref, amount, 0, 0, false);
      } else {
        var paid := PriceOf(rest[k], amount);
        ElsewhereKeepsBooks(before, step, ref, amount, paid, amount - paid, true);
      }
    }
  }

  /** A failed enqueue releases the whole hold with release_credits, although the worker may have started: after any mix of
      settling calls and other steps that is safe exactly when the guard of release_reservation_if_held would let it through,
      that is, when nobody has settled the ref (or nothing was held). */
  lemma UnguardedReleaseIsSafeIff(a: Account, ref: Ref, amount: nat, steps: seq<Step>)
    requires Unused(a.ledger, ref) && CanReserve(a, amount) && Mixed(steps, ref, amount)
    requires HoldsAgree(Run(ReserveHold(a, amount, ref), steps))
    ensures var b := Run(ReserveHold(a, amount, ref), steps);
            && (HoldsAgree(ReleaseHold(b, amount, ref)) <==> IsHeld(b, ref) || amount == 0)
            && (IsHeld(b, ref) <==> FirstSettle(steps, ref, amount) == |steps|)
  {
    SettledExactlyOnce(a, ref, amount, steps);
    ReleasingIsSafeIff(Run(ReserveHold(a, amount, ref), steps), amount, ref);
  }

  /** The freshness matters. A ref settled once in two rows and reserved again hides its second hold from the cancel
      path: two RESERVE rows do not outnumber two finalizers. */
  lemma ReusedRefHidesHold(a: Account, ref: Ref)
    requires a.ledger == [Row(Operation.Reserve, -10, Some(ref)), Row(Charge(LessonGenerate), -4, Some(ref)),
                          Row(Operation.Release, 6, Some(ref)), Row(Operation.Reserve, -10, Some(ref))]
    ensures Outstanding(a.ledger, ref) == 10 && ReleaseIfHeld(a, ref) == a
  {
    var rows := a.ledger;
    UnusedSums([], ref);
    assert rows[..1] == [] + [rows[0]] && rows[..2] == rows[..1] + [rows[1]] && rows[..3] == rows[..2] + [rows[2]] && rows == rows[..3] + [rows[3]];
    AppendAt([], rows[0], ref);
    AppendAt(rows[..1], rows[1], ref);
    AppendAt(rows[..2], rows[2], ref);
    AppendAt(rows[..3], rows[3], ref);
  }
}
