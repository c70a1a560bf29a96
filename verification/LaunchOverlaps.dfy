/** The credit side of the launch protocol when launches overlap: when the broker-failure compensation is safe, and runs in
    which it is not. */
module LaunchOverlaps {
  import opened Common
  import opened Ledger
  import opened Billing
  import opened LaunchProtocol

  predicate AllPolite(w: World, moves: seq<Move>) {
    moves == [] || (AllPolite(w, moves[..|moves| - 1]) && Polite(Play(w, moves[..|moves| - 1]), moves[|moves| - 1]))
  }

  /** A ref reserved `amount` at most once; until its first finalizer all of it is outstanding, after it nothing, or less. */
  ghost predicate RefSound(a: Account, ref: Ref, amount: nat) {
    && 0 <= Reserves(a.ledger, ref) <= 1 && Finalizers(a.ledger, ref) >= 0
    && (Reserves(a.ledger, ref) == 1 <==> LastReserve(a.ledger, ref).Some?)
    && (LastReserve(a.ledger, ref).Some? ==> LastReserve(a.ledger, ref).value.delta == -(amount as int))
    && (Reserves(a.ledger, ref) == 0 ==> amount == 0)
    && (Finalizers(a.ledger, ref) == 0 ==> Outstanding(a.ledger, ref) == amount)
    && (Finalizers(a.ledger, ref) >= 1 ==> Outstanding(a.ledger, ref) <= 0)
  }

  predicate Launching(proc: Process) {
    proc.Reserved? || proc.Tagged? || proc.LaunchClaimed?
  }

  /** What a process carries: a launch that paid with credits the amount its ref reserved, one on the trial a ref that never
      reserved anything, a worker the amount of the ref it read. */
  ghost predicate ProcSound(a: Account, minted: map<Ref, nat>, proc: Process) {
    && (KnownRef(proc).Some? ==> KnownRef(proc).value in minted)
    && (Launching(proc) && proc.own.Credits? ==> proc.estimate == minted[proc.ref] && Reserves(a.ledger, proc.ref) == 1)
    && (Launching(proc) && proc.own.Trial? ==> Reserves(a.ledger, proc.ref) == 0)
    && ((proc.TaskRead? || proc.TaskClaimed?) && proc.known.Some? ==> proc.estimate == minted[proc.known.value])
  }

  ghost predicate RowPriced(minted: map<Ref, nat>, row: LessonRow) {
    row.billingRef.Some? ==> row.billingRef.value in minted && row.estimate == minted[row.billingRef.value]
  }

  ghost predicate Sound(w: World) {
    && RefsSound(w.account, w.minted)
    && RowPriced(w.minted, w.lesson)
    && (forall i :: 0 <= i < |w.procs| ==> ProcSound(w.account, w.minted, w.procs[i]))
  }

  // ----- the account -----

  ghost predicate SameBooks(a: Account, b: Account, ref: Ref) {
    && Outstanding(b.ledger, ref) == Outstanding(a.ledger, ref) && Finalizers(b.ledger, ref) == Finalizers(a.ledger, ref)
    && Reserves(b.ledger, ref) == Reserves(a.ledger, ref) && LastReserve(b.ledger, ref) == LastReserve(a.ledger, ref)
  }

  lemma OtherStep(a: Account, step: Step, ref: Ref)
    requires ref.Launch? && (step.Granting? || step.Purchasing? || step.Renewing? || step.ref != ref)
    ensures SameBooks(a, Next(a, step), ref)
  {
    OtherRows(a, step, ref);
    GrownElsewhere(a.ledger, Next(a, step).ledger, ref);
  }

  lemma ReleaseKeepsRef(a: Account, ref: Ref, held: nat, amount: nat)
    requires RefSound(a, ref, held) && (Finalizers(a.ledger, ref) == 0 ==> amount >= held)
    ensures RefSound(ReleaseHold(a, amount, ref), ref, held)
    ensures Reserves(ReleaseHold(a, amount, ref).ledger, ref) == Reserves(a.ledger, ref)
  {
    AppendAt(a.ledger, Row(Operation.Release, amount, Some(ref)), ref);
  }

  lemma CancelKeepsRef(a: Account, ref: Ref, held: nat)
    requires RefSound(a, ref, held)
    ensures RefSound(ReleaseIfHeld(a, ref), ref, held)
    ensures Reserves(ReleaseIfHeld(a, ref).ledger, ref) == Reserves(a.ledger, ref)
  {
    if IsHeld(a, ref) {
      AppendAt(a.ledger, Row(Operation.Release, held, Some(ref)), ref);
    }
  }

  lemma FinalizeKeepsRef(a: Account, ref: Ref, held: nat, spent: int, work: Work)
    requires RefSound(a, ref, held)
    ensures RefSound(Finalize(a, ref, held, spent, work), ref, held)
    ensures Reserves(Finalize(a, ref, held, spent, work).ledger, ref) == Reserves(a.ledger, ref)
  {
    if !IsFinalized(a, ref) {
      FinalizeRows(a, ref, held, spent, work);
      SettledRowsOfRef(a.ledger, Clamped(spent, held), held, ref, work);
    }
  }

  lemma SettledRowsOfRef(rows: seq<Row>, paid: nat, estimate: nat, ref: Ref, work: Work)
    requires paid <= estimate
    ensures var later := SettledRows(rows, paid, estimate, ref, work);
            && Outstanding(later, ref) == Outstanding(rows, ref) - estimate && Finalizers(later, ref) > Finalizers(rows, ref)
            && Reserves(later, ref) == Reserves(rows, ref) && LastReserve(later, ref) == LastReserve(rows, ref)
  {
    var charge, release := PaidRow(paid, ref, work), RestRow(paid, estimate, ref);
    if paid == 0 {
      AppendAt(rows, release, ref);
    } else if paid == estimate {
      AppendAt(rows, charge, ref);
    } else {
      AppendAt(rows, charge, ref);
      AppendAt(rows + [charge], release, ref);
    }
  }

  /** Whatever a move does to the account, every ref minted before stays sound and reserved as often as it was. */
  lemma AccountKeepsRef(w: World, m: Move, ref: Ref)
    requires Sound(w) && Polite(w, m) && ref in w.minted
    ensures RefSound(AccountAfter(w, m), ref, w.minted[ref])
    ensures Reserves(AccountAfter(w, m).ledger, ref) == Reserves(w.account.ledger, ref)
  {
    assert RefSound(w.account, ref, w.minted[ref]);
    if Induced(w, m).Some? {
      var step := Induced(w, m).value;
      if step.Granting? || step.Purchasing? || step.Renewing? || step.ref != ref {
        OtherStep(w.account, step, ref);
      } else {
        SettlementKeepsRef(w, m, ref);
      }
    }
  }

  /** A settling step as the lesson's processes perform them: nothing less than the hold is released before a finalizer, and a
      finalizer is handed the hold. */
  ghost predicate SettlesHold(a: Account, step: Step, ref: Ref, held: nat) {
    match step
    case Releasing(amount, r) => r == ref && (Finalizers(a.ledger, ref) == 0 ==> amount >= held)
    case ReleasingIfHeld(r) => r == ref
    case Finalizing(r, estimate, _, _) => r == ref && estimate == held
    case _ => false
  }

  lemma SettlingKeepsRef(a: Account, step: Step, ref: Ref, held: nat)
    requires RefSound(a, ref, held) && SettlesHold(a, step, ref, held)
    ensures RefSound(Next(a, step), ref, held) && Reserves(Next(a, step).ledger, ref) == Reserves(a.ledger, ref)
  {
    match step
    case Releasing(amount, _) => ReleaseKeepsRef(a, ref, held, amount);
    case ReleasingIfHeld(_) => CancelKeepsRef(a, ref, held);
    case Finalizing(_, _, spent, work) => FinalizeKeepsRef(a, ref, held, spent, work);
  }

  lemma SettlementKeepsRef(w: World, m: Move, ref: Ref)
    requires Sound(w) && Polite(w, m) && ref in w.minted && Induced(w, m).Some?
    requires var step := Induced(w, m).value; !step.Granting? && !step.Purchasing? && !step.Renewing? && step.ref == ref
    ensures RefSound(AccountAfter(w, m), ref, w.minted[ref])
    ensures Reserves(AccountAfter(w, m).ledger, ref) == Reserves(w.account.ledger, ref)
  {
    InducedSettles(w, m, ref);
    SettlingKeepsRef(w.account, Induced(w, m).value, ref, w.minted[ref]);
  }

  lemma InducedSettles(w: World, m: Move, ref: Ref)
    requires Sound(w) && Polite(w, m) && ref in w.minted && Induced(w, m).Some?
    requires var step := Induced(w, m).value; !step.Granting? && !step.Purchasing? && !step.Renewing? && step.ref == ref
    ensures IsSettlement(m) && SettlesHold(w.account, Induced(w, m).value, ref, w.minted[ref])
  {
    assert RefSound(w.account, ref, w.minted[ref]);
    if IsSettlement(m) {
      assert ProcSound(w.account, w.minted, w.procs[m.p]);
    }
  }

  // ----- the processes -----

  /** What a process carries stays right when refs keep their reserves and more refs are minted. */
  lemma ProcKeeps(a: Account, b: Account, minted: map<Ref, nat>, more: map<Ref, nat>, proc: Process)
    requires ProcSound(a, minted, proc)
    requires forall ref :: ref in minted ==> Reserves(b.ledger, ref) == Reserves(a.ledger, ref)
    requires forall ref :: ref in minted ==> ref in more && more[ref] == minted[ref]
    ensures ProcSound(b, more, proc)
  {
  }

  predicate IsLaunch(m: Move) {
    m.LaunchOnCredits? || m.LaunchOnTrial?
  }

  function HeldAtLaunch(m: Move): nat
    requires IsLaunch(m)
  {
    if m.LaunchOnCredits? then m.estimate else 0
  }

  lemma Launched(w: World, m: Move)
    requires IsLaunch(m) && After(w, m) != w
    ensures var v := After(w, m);
            && v.procs == w.procs + [Reserved(m.kind, if m.LaunchOnCredits? then Credits else Trial, m.ref, m.estimate)]
            && v.minted == w.minted[m.ref := HeldAtLaunch(m)] && v.lesson == w.lesson && v.account == AccountAfter(w, m)
            && (m.LaunchOnCredits? ==> CanReserve(w.account, m.estimate))
  {
  }

  lemma LaunchKeepsSound(w: World, m: Move)
    requires Sound(w) && Polite(w, m) && IsLaunch(m)
    ensures Sound(After(w, m))
  {
    if After(w, m) != w {
      Launched(w, m);
      FreshRef(w, m);
      forall ref | ref in w.minted
        ensures RefSound(AccountAfter(w, m), ref, w.minted[ref])
        ensures Reserves(AccountAfter(w, m).ledger, ref) == Reserves(w.account.ledger, ref)
      {
        AccountKeepsRef(w, m, ref);
      }
      LaunchedIsSound(w, After(w, m), m);
    }
  }

  lemma LaunchedIsSound(w: World, v: World, m: Move)
    requires Sound(w) && IsLaunch(m) && m.ref.Launch? && m.ref !in w.minted && v.lesson == w.lesson
    requires v.procs == w.procs + [Reserved(m.kind, if m.LaunchOnCredits? then Credits else Trial, m.ref, m.estimate)]
    requires v.minted == w.minted[m.ref := HeldAtLaunch(m)] && RefSound(v.account, m.ref, HeldAtLaunch(m))
    requires Reserves(v.account.ledger, m.ref) == if m.LaunchOnCredits? then 1 else 0
    requires forall ref :: ref in w.minted ==>
               RefSound(v.account, ref, w.minted[ref]) && Reserves(v.account.ledger, ref) == Reserves(w.account.ledger, ref)
    ensures Sound(v)
  {
    MoreRefs(w.account, v.account, w.minted, m.ref, HeldAtLaunch(m));
    NewProcSound(v.account, v.minted, m);
    ProcsKeep(w.account, v.account, w.minted, v.minted, w.procs);
  }

  lemma ProcsKeep(a: Account, b: Account, minted: map<Ref, nat>, more: map<Ref, nat>, procs: seq<Process>)
    requires forall i :: 0 <= i < |procs| ==> ProcSound(a, minted, procs[i])
    requires forall ref :: ref in minted ==> Reserves(b.ledger, ref) == Reserves(a.ledger, ref)
    requires forall ref :: ref in minted ==> ref in more && more[ref] == minted[ref]
    ensures forall i :: 0 <= i < |procs| ==> ProcSound(b, more, procs[i])
  {
    forall i | 0 <= i < |procs| ensures ProcSound(b, more, procs[i]) {
      ProcKeeps(a, b, minted, more, procs[i]);
    }
  }

  ghost predicate RefsSound(a: Account, minted: map<Ref, nat>) {
    forall ref :: ref in minted ==> ref.Launch? && RefSound(a, ref, minted[ref])
  }

  lemma MoreRefs(a: Account, b: Account, minted: map<Ref, nat>, ref: Ref, held: nat)
    requires RefsSound(a, minted) && ref.Launch? && ref !in minted && RefSound(b, ref, held)
    requires forall r :: r in minted ==> RefSound(b, r, minted[r])
    ensures RefsSound(b, minted[ref := held])
  {
  }

  lemma NewProcSound(a: Account, minted: map<Ref, nat>, m: Move)
    requires IsLaunch(m) && m.ref in minted && minted[m.ref] == HeldAtLaunch(m)
    requires Reserves(a.ledger, m.ref) == if m.LaunchOnCredits? then 1 else 0
    ensures ProcSound(a, minted, Reserved(m.kind, if m.LaunchOnCredits? then Credits else Trial, m.ref, m.estimate))
  {
  }

  lemma FreshRef(w: World, m: Move)
    requires Polite(w, m) && IsLaunch(m) && (m.LaunchOnCredits? ==> CanReserve(w.account, m.estimate))
    ensures RefSound(AccountAfter(w, m), m.ref, HeldAtLaunch(m))
    ensures Reserves(AccountAfter(w, m).ledger, m.ref) == if m.LaunchOnCredits? then 1 else 0
  {
    UnusedSums(w.account.ledger, m.ref);
    UnusedHasNoReserve(w.account.ledger, m.ref);
    if m.LaunchOnCredits? {
      AppendAt(w.account.ledger, Row(Operation.Reserve, -(m.estimate as int), Some(m.ref)), m.ref);
    }
  }

  lemma {:induction false} UnusedHasNoReserve(rows: seq<Row>, ref: Ref)
    requires Unused(rows, ref)
    ensures LastReserve(rows, ref).None?
  {
    if rows != [] {
      UnusedHasNoReserve(rows[..|rows| - 1], ref);
    }
  }

  /** The processes of every other move are the old ones but for one that is new or has moved on with what it knew. */
  lemma OtherMoveKeepsSound(w: World, m: Move)
    requires Sound(w) && Polite(w, m) && !IsLaunch(m)
    ensures Sound(After(w, m))
  {
    MoveOnAccount(w, m);
    MintsNothing(w, m);
    forall ref | ref in w.minted
      ensures RefSound(AccountAfter(w, m), ref, w.minted[ref])
      ensures Reserves(AccountAfter(w, m).ledger, ref) == Reserves(w.account.ledger, ref)
    {
      AccountKeepsRef(w, m, ref);
    }
    RowKeeps(w, m);
    forall i | 0 <= i < |After(w, m).procs| ensures ProcSound(w.account, w.minted, After(w, m).procs[i]) {
      ProcMoves(w, m, i);
    }
    MovedIsSound(w, After(w, m));
  }

  lemma MovedIsSound(w: World, v: World)
    requires Sound(w) && v.minted == w.minted && RowPriced(v.minted, v.lesson)
    requires forall ref :: ref in w.minted ==>
               RefSound(v.account, ref, w.minted[ref]) && Reserves(v.account.ledger, ref) == Reserves(w.account.ledger, ref)
    requires forall i :: 0 <= i < |v.procs| ==> ProcSound(w.account, w.minted, v.procs[i])
    ensures Sound(v)
  {
    ProcsKeep(w.account, v.account, w.minted, v.minted, v.procs);
  }

  lemma MintsNothing(w: World, m: Move)
    requires !IsLaunch(m)
    ensures After(w, m).minted == w.minted
  {
    if IsClaim(m) {
      ClaimsShape(w, m);
    } else if IsSettlement(m) {
      SettlesShape(w, m);
    } else {
      ElsewhereShape(w, m);
    }
  }

  lemma RowKeeps(w: World, m: Move)
    requires Sound(w) && !IsLaunch(m)
    ensures RowPriced(w.minted, After(w, m).lesson)
  {
    if IsClaim(m) {
      ClaimsShape(w, m);
    } else if IsSettlement(m) {
      SettlesShape(w, m);
    } else if m.WriteRow? && At(w, m.p) {
      assert ProcSound(w.account, w.minted, w.procs[m.p]);
    } else {
      ElsewhereShape(w, m);
    }
  }

  /** The processes of any other move are the old ones, but for one that is new or has moved on with what it knew. */
  lemma ProcMoves(w: World, m: Move, i: nat)
    requires Sound(w) && !IsLaunch(m) && i < |After(w, m).procs|
    ensures ProcSound(w.account, w.minted, After(w, m).procs[i])
  {
    assert i < |w.procs| ==> ProcSound(w.account, w.minted, w.procs[i]);
    if IsClaim(m) {
      ClaimMoves(w, m, i);
    } else if IsSettlement(m) {
      SettlesShape(w, m);
    } else if m.CancelBegins? || m.TaskBegins? {
      BeginMoves(w, m, i);
    } else {
      StepMoves(w, m, i);
    }
  }

  lemma BeginMoves(w: World, m: Move, i: nat)
    requires RowPriced(w.minted, w.lesson) && (m.CancelBegins? || m.TaskBegins?) && i < |After(w, m).procs|
    requires i < |w.procs| ==> ProcSound(w.account, w.minted, w.procs[i])
    ensures ProcSound(w.account, w.minted, After(w, m).procs[i])
  {
  }

  lemma WinnerSound(a: Account, minted: map<Ref, nat>, proc: Process, m: Move, via: Via)
    requires ProcSound(a, minted, proc)
    ensures ProcSound(a, minted, Winner(proc, m, via))
  {
  }

  lemma ClaimMoves(w: World, m: Move, i: nat)
    requires IsClaim(m) && i < |Claims(w, m).procs| && (i < |w.procs| ==> ProcSound(w.account, w.minted, w.procs[i]))
    ensures ProcSound(w.account, w.minted, Claims(w, m).procs[i])
  {
    ClaimsShape(w, m);
    if i == m.p && w.lesson.billedVia.Some? {
      WinnerSound(w.account, w.minted, w.procs[i], m, w.lesson.billedVia.value);
    }
  }

  lemma StepMoves(w: World, m: Move, i: nat)
    requires m.WriteRow? || m.BrokerAccepts? || m.ElsewhereOnAccount? || m.ElsewhereTakesSlot? || m.ElsewhereReturnsSlot?
    requires i < |After(w, m).procs| && (i < |w.procs| ==> ProcSound(w.account, w.minted, w.procs[i]))
    ensures ProcSound(w.account, w.minted, After(w, m).procs[i])
  {
    ElsewhereShape(w, m);
  }

  lemma {:induction false} SoundInEveryRun(account: Account, others: nat, moves: seq<Move>)
    requires AllPolite(Start(account, others), moves)
    ensures Sound(Play(Start(account, others), moves))
  {
    if moves != [] {
      var w, m := Play(Start(account, others), moves[..|moves| - 1]), moves[|moves| - 1];
      SoundInEveryRun(account, others, moves[..|moves| - 1]);
      if IsLaunch(m) {
        LaunchKeepsSound(w, m);
      } else {
        OtherMoveKeepsSound(w, m);
      }
    }
  }

  /** When the broker-failure compensation is about to release credits, in whatever run, overlapping launches included: it
      keeps the holds right if and only if the guard of release_reservation_if_held would let it through, one RESERVE row
      and no finalizer under the launch's own ref, or the launch was priced at nothing. release_credits does not look. */
  lemma CompensationIsSafeIff(account: Account, others: nat, moves: seq<Move>, p: nat)
    requires AllPolite(Start(account, others), moves)
    requires var w := Play(Start(account, others), moves);
             HoldsAgree(w.account) && At(w, p) && w.procs[p].LaunchClaimed? && w.procs[p].claimed.Credits?
    ensures var w := Play(Start(account, others), moves);
            HoldsAgree(After(w, Compensate(p)).account) <==> IsHeld(w.account, w.procs[p].ref) || w.procs[p].estimate == 0
  {
    SoundInEveryRun(account, others, moves);
    CompensationSettlesIff(Play(Start(account, others), moves), p);
  }

  lemma CompensationSettlesIff(w: World, p: nat)
    requires Sound(w) && HoldsAgree(w.account) && At(w, p) && w.procs[p].LaunchClaimed? && w.procs[p].claimed.Credits?
    ensures HoldsAgree(After(w, Compensate(p)).account) <==> SafeMove(w, Compensate(p))
  {
    MoveOnAccount(w, Compensate(p));
    if SafeMove(w, Compensate(p)) {
      SafeCompensation(w, p);
    } else {
      CompensationOverdraws(w, p);
      assert Outstanding(AccountAfter(w, Compensate(p)).ledger, w.procs[p].ref) < 0;
    }
  }

  // ----- whole runs -----

  /** A compensation about to release credits meets the guard, or is priced at nothing. */
  predicate SafeMove(w: World, m: Move) {
    m.Compensate? && At(w, m.p) && w.procs[m.p].LaunchClaimed? && w.procs[m.p].claimed.Credits? ==>
      IsHeld(w.account, w.procs[m.p].ref) || w.procs[m.p].estimate == 0
  }

  predicate AllSafe(w: World, moves: seq<Move>) {
    moves == [] || (AllSafe(w, moves[..|moves| - 1]) && SafeMove(Play(w, moves[..|moves| - 1]), moves[|moves| - 1]))
  }

  ghost predicate RefOverdrawn(a: Account, ref: Ref) {
    Finalizers(a.ledger, ref) >= 1 && Outstanding(a.ledger, ref) < 0
  }

  /** More was settled under a ref of the lesson than it ever held. */
  ghost predicate Overdrawn(w: World) {
    exists ref :: ref in w.minted && RefOverdrawn(w.account, ref)
  }

  /** Every account step of the lesson but the compensation meets the discipline, overlaps or not. */
  lemma OthersAreAllowed(w: World, m: Move)
    requires Sound(w) && Polite(w, m) && Induced(w, m).Some? && !m.Compensate?
    ensures Allowed(w.account, Induced(w, m).value)
  {
    if m.CancelSettles? || m.TaskSettles? {
      assert ProcSound(w.account, w.minted, w.procs[m.p]);
      assert RefSound(w.account, Induced(w, m).value.ref, w.minted[Induced(w, m).value.ref]);
    }
  }

  lemma CompensationOverdraws(w: World, p: nat)
    requires Sound(w) && At(w, p) && w.procs[p].LaunchClaimed? && w.procs[p].claimed.Credits? && !SafeMove(w, Compensate(p))
    ensures w.procs[p].ref in w.minted && RefOverdrawn(AccountAfter(w, Compensate(p)), w.procs[p].ref)
  {
    var ref := w.procs[p].ref;
    assert ProcSound(w.account, w.minted, w.procs[p]);
    assert RefSound(w.account, ref, w.minted[ref]);
    AppendAt(w.account.ledger, Row(Operation.Release, w.procs[p].estimate, Some(ref)), ref);
  }

  /** One move from holds that are right: they stay right exactly if the move is safe, and else a ref is overdrawn. */
  lemma MoveKeepsHoldsIff(w: World, m: Move)
    requires Sound(w) && Polite(w, m) && HoldsAgree(w.account)
    ensures if SafeMove(w, m) then HoldsAgree(AccountAfter(w, m))
            else w.procs[m.p].ref in w.minted && RefOverdrawn(AccountAfter(w, m), w.procs[m.p].ref)
  {
    if Induced(w, m).Some? {
      if !m.Compensate? {
        OthersAreAllowed(w, m);
        StepKeepsHolds(w.account, Induced(w, m).value);
      } else if SafeMove(w, m) {
        SafeCompensation(w, m.p);
      } else {
        CompensationOverdraws(w, m.p);
      }
    }
  }

  lemma SafeCompensation(w: World, p: nat)
    requires Sound(w) && HoldsAgree(w.account) && At(w, p) && w.procs[p].LaunchClaimed? && w.procs[p].claimed.Credits?
    requires SafeMove(w, Compensate(p))
    ensures HoldsAgree(ReleaseHold(w.account, w.procs[p].estimate, w.procs[p].ref))
  {
    var proc := w.procs[p];
    assert ProcSound(w.account, w.minted, proc);
    assert RefSound(w.account, proc.ref, w.minted[proc.ref]);
    ReleasingIsSafeIff(w.account, proc.estimate, proc.ref);
  }

  lemma SettlingKeepsOverdrawn(a: Account, step: Step, ref: Ref, held: nat)
    requires RefSound(a, ref, held) && RefOverdrawn(a, ref) && SettlesHold(a, step, ref, held)
    ensures RefOverdrawn(Next(a, step), ref)
  {
    if step.Releasing? {
      AppendAt(a.ledger, Row(Operation.Release, step.amount, Some(ref)), ref);
    }
  }

  /** An overdrawn ref stays overdrawn: nothing is reserved under it again, and finalizers and cancels leave it alone. */
  lemma OverdrawnStays(w: World, m: Move, ref: Ref)
    requires Sound(w) && Polite(w, m) && ref in w.minted && RefOverdrawn(w.account, ref)
    ensures RefOverdrawn(AccountAfter(w, m), ref)
  {
    assert RefSound(w.account, ref, w.minted[ref]);
    if Induced(w, m).Some? {
      var step := Induced(w, m).value;
      if step.Granting? || step.Purchasing? || step.Renewing? || step.ref != ref {
        OtherStep(w.account, step, ref);
      } else {
        InducedSettles(w, m, ref);
        SettlingKeepsOverdrawn(w.account, step, ref, w.minted[ref]);
      }
    }
  }

  lemma MintsOnly(w: World, m: Move)
    ensures w.minted.Keys <= After(w, m).minted.Keys && After(w, m).account == AccountAfter(w, m)
  {
    if IsLaunch(m) {
      if After(w, m) != w {
        Launched(w, m);
      }
    } else {
      MintsNothing(w, m);
    }
    MoveOnAccount(w, m);
  }

  lemma MoveSettlesIff(w: World, m: Move)
    requires Sound(w) && Polite(w, m)
    ensures HoldsAgree(w.account) && SafeMove(w, m) ==> HoldsAgree(After(w, m).account)
    ensures HoldsAgree(w.account) && !SafeMove(w, m) ==> Overdrawn(After(w, m))
    ensures Overdrawn(w) ==> Overdrawn(After(w, m))
  {
    MintsOnly(w, m);
    if HoldsAgree(w.account) {
      MoveKeepsHoldsIff(w, m);
    }
    if ref :| ref in w.minted && RefOverdrawn(w.account, ref) {
      OverdrawnStays(w, m, ref);
    }
  }

  lemma {:induction false} SafeOrOverdrawn(account: Account, others: nat, moves: seq<Move>)
    requires HoldsAgree(account) && AllPolite(Start(account, others), moves)
    ensures var w := Play(Start(account, others), moves);
            if AllSafe(Start(account, others), moves) then HoldsAgree(w.account) else Overdrawn(w)
  {
    if moves != [] {
      var front := moves[..|moves| - 1];
      SafeOrOverdrawn(account, others, front);
      SoundInEveryRun(account, others, front);
      MoveSettlesIff(Play(Start(account, others), front), moves[|moves| - 1]);
    }
  }

  /** Over every run, overlapping launches included, the holds are right at the end if and only if every compensation that
      released credits met the guard of release_reservation_if_held, or was priced at nothing. Nothing later repairs one that
      did not: the ref stays overdrawn. */
  lemma HoldsAgreeIffAllSafe(account: Account, others: nat, moves: seq<Move>)
    requires HoldsAgree(account) && AllPolite(Start(account, others), moves)
    ensures HoldsAgree(Play(Start(account, others), moves).account) <==> AllSafe(Start(account, others), moves)
  {
    SafeOrOverdrawn(account, others, moves);
    var w := Play(Start(account, others), moves);
    if ref :| ref in w.minted && RefOverdrawn(w.account, ref) {
      assert Outstanding(w.account.ledger, ref) < 0;
    }
  }

  // ----- runs in which it is not safe -----

  /** A list of worlds, each the polite successor of the one before. */
  ghost predicate LeadsPolitely(worlds: seq<World>, moves: seq<Move>, i: nat) {
    Leads(worlds, moves, i) && Polite(worlds[i], moves[i])
  }

  lemma PoliteStep(w: World, moves: seq<Move>, k: nat, before: World)
    requires k < |moves| && AllPolite(w, moves[..k]) && Play(w, moves[..k]) == before && Polite(before, moves[k])
    ensures AllPolite(w, moves[..k + 1])
  {
    assert moves[..k + 1][..k] == moves[..k];
  }

  lemma {:induction false} TraceIsPolite(worlds: seq<World>, moves: seq<Move>, n: nat)
    requires n <= |moves| && n < |worlds|
    requires forall i: nat :: i < n ==> LeadsPolitely(worlds, moves, i)
    ensures AllPolite(worlds[0], moves[..n])
  {
    if n > 0 {
      TraceIsPolite(worlds, moves, n - 1);
      forall i: nat | i < n - 1 ensures Leads(worlds, moves, i) {
        assert LeadsPolitely(worlds, moves, i);
      }
      TraceIsRun(worlds, moves, n - 1);
      assert LeadsPolitely(worlds, moves, n - 1);
      PoliteStep(worlds[0], moves, n - 1, worlds[n - 1]);
    }
  }

  const OVERLAP: seq<Move> :=
    [LaunchOnCredits(Video, Launch(0), 5), WriteRow(0), TaskBegins(Video), TaskClaims(1, 5, true), TaskSettles(1),
     LaunchOnCredits(Video, Launch(1), 5), WriteRow(2), BrokerFails(0), Compensate(0)]

  function OverlapAccount(account: Account, i: nat): Account {
    var held := ReserveHold(account, 5, Launch(0));
    var paid := Finalize(held, Launch(0), 5, 5, LessonGenerate);
    var again := ReserveHold(paid, 5, Launch(1));
    if i == 0 then account else if i < 5 then held else if i == 5 then paid else if i < 9 then again else ReleaseHold(again, 5, Launch(0))
  }

  function OverlapProcs(i: nat): seq<Process> {
    var first, second := Tagged(Video, Credits, Launch(0), 5), Tagged(Video, Credits, Launch(1), 5);
    if i == 0 then []
    else if i == 1 then [Reserved(Video, Credits, Launch(0), 5)]
    else if i == 2 then [first]
    else if i == 3 then [first, TaskRead(Video, Some(Launch(0)), 5)]
    else if i == 4 then [first, TaskClaimed(Video, Credits, Some(Launch(0)), 5, 5, true)]
    else if i == 5 then [first, Finished]
    else if i == 6 then [first, Finished, Reserved(Video, Credits, Launch(1), 5)]
    else if i == 7 then [first, Finished, second]
    else if i == 8 then [LaunchClaimed(Video, Credits, Credits, Launch(0), 5), Finished, second]
    else [Finished, Finished, second]
  }

  function OverlapWorld(account: Account, i: nat): World {
    var tag := if 2 <= i < 4 || i == 7 then Some(Credits) else None;
    var ref := if i < 2 then None else if i < 7 then Some(Launch(0)) else Some(Launch(1));
    World(OverlapAccount(account, i), 0, LessonRow(tag, ref, if i < 2 then 0 else 5), OverlapProcs(i),
          if i == 0 then map[] else if i < 6 then map[Launch(0) := 5] else map[Launch(0) := 5, Launch(1) := 5],
          if i < 7 then Author(0, Video) else Author(2, Video),
          if i < 4 then map[] else if i < 8 then map[1 := Author(0, Video)] else map[1 := Author(0, Video), 0 := Author(2, Video)],
          {}, 0, 0, if 4 <= i < 7 || 8 <= i then 1 else 0)
  }

  lemma OverlapFirst(account: Account, i: nat)
    requires i < 5 && CanReserve(account, 5) && Unused(account.ledger, Launch(0))
    ensures After(OverlapWorld(account, i), OVERLAP[i]) == OverlapWorld(account, i + 1)
    ensures Polite(OverlapWorld(account, i), OVERLAP[i])
  {
    if i < 2 {
      OverlapLaunch(account, i);
    } else if i < 4 {
      OverlapWorker(account, i);
    } else {
      OverlapSettles(account);
    }
  }

  lemma OverlapLaunch(account: Account, i: nat)
    requires i < 2 && CanReserve(account, 5) && Unused(account.ledger, Launch(0))
    ensures After(OverlapWorld(account, i), OVERLAP[i]) == OverlapWorld(account, i + 1)
    ensures Polite(OverlapWorld(account, i), OVERLAP[i])
  {
  }

  lemma OverlapSettles(account: Account)
    ensures After(OverlapWorld(account, 4), OVERLAP[4]) == OverlapWorld(account, 5)
    ensures Polite(OverlapWorld(account, 4), OVERLAP[4])
  {
  }

  lemma OverlapWorker(account: Account, i: nat)
    requires 2 <= i < 4
    ensures After(OverlapWorld(account, i), OVERLAP[i]) == OverlapWorld(account, i + 1)
    ensures Polite(OverlapWorld(account, i), OVERLAP[i])
  {
  }

  lemma OverlapSecond(account: Account, i: nat)
    requires 5 <= i < 9 && CanReserve(OverlapAccount(account, 5), 5) && Unused(OverlapAccount(account, 5).ledger, Launch(1))
    ensures After(OverlapWorld(account, i), OVERLAP[i]) == OverlapWorld(account, i + 1)
    ensures Polite(OverlapWorld(account, i), OVERLAP[i])
  {
    if i < 7 {
      OverlapRelaunch(account, i);
    } else {
      OverlapBreaks(account, i);
    }
  }

  lemma OverlapRelaunch(account: Account, i: nat)
    requires 5 <= i < 7 && CanReserve(OverlapAccount(account, 5), 5) && Unused(OverlapAccount(account, 5).ledger, Launch(1))
    ensures After(OverlapWorld(account, i), OVERLAP[i]) == OverlapWorld(account, i + 1)
    ensures Polite(OverlapWorld(account, i), OVERLAP[i])
  {
  }

  lemma OverlapBreaks(account: Account, i: nat)
    requires 7 <= i < 9
    ensures After(OverlapWorld(account, i), OVERLAP[i]) == OverlapWorld(account, i + 1)
    ensures Polite(OverlapWorld(account, i), OVERLAP[i])
  {
  }

  /** Launch 0 is finalized by a worker that started although enqueueing is about to fail; launch 1 overwrites the row; launch
      0's compensation then claims launch 1's tag and releases its own hold a second time. The hold of launch 1 is left
      without cover. */
  lemma OverlapReleasesTwice(account: Account)
    requires account.balance == 20 && account.reserved == 0
    requires Unused(account.ledger, Launch(0)) && Unused(account.ledger, Launch(1))
    ensures AllPolite(Start(account, 0), OVERLAP)
    ensures var end := Play(Start(account, 0), OVERLAP).account;
            end.reserved == 0 && Outstanding(end.ledger, Launch(1)) == 5 && Outstanding(end.ledger, Launch(0)) == -5
  {
    var worlds := seq(10, (i: nat) => OverlapWorld(account, i));
    OverlapSums(account);
    forall i: nat | i < 9 ensures LeadsPolitely(worlds, OVERLAP, i) {
      if i < 5 {
        OverlapFirst(account, i);
      } else {
        OverlapSecond(account, i);
      }
    }
    forall i: nat | i < 9 ensures Leads(worlds, OVERLAP, i) {
      assert LeadsPolitely(worlds, OVERLAP, i);
    }
    TraceIsRun(worlds, OVERLAP, 9);
    TraceIsPolite(worlds, OVERLAP, 9);
    assert OVERLAP[..9] == OVERLAP;
  }

  lemma OverlapSums(account: Account)
    requires account.balance == 20 && account.reserved == 0
    requires Unused(account.ledger, Launch(0)) && Unused(account.ledger, Launch(1))
    ensures CanReserve(OverlapAccount(account, 5), 5) && Unused(OverlapAccount(account, 5).ledger, Launch(1))
    ensures var end := OverlapAccount(account, 9);
            end.reserved == 0 && Outstanding(end.ledger, Launch(1)) == 5 && Outstanding(end.ledger, Launch(0)) == -5
  {
    UnusedSums(account.ledger, Launch(0));
    UnusedSums(account.ledger, Launch(1));
    OverlapLedger(account);
    OverlapRowSums(account.ledger);
  }

  function OverlapRows(rows: seq<Row>): seq<Row> {
    rows + [Row(Operation.Reserve, -5, Some(Launch(0)))] + [Row(Charge(LessonGenerate), -5, Some(Launch(0)))]
    + [Row(Operation.Reserve, -5, Some(Launch(1)))] + [Row(Operation.Release, 5, Some(Launch(0)))]
  }

  lemma OverlapLedger(account: Account)
    requires account.balance == 20 && account.reserved == 0 && Finalizers(account.ledger, Launch(0)) == 0
    ensures OverlapAccount(account, 5).ledger == OverlapRows(account.ledger)[..|account.ledger| + 2]
    ensures OverlapAccount(account, 9).ledger == OverlapRows(account.ledger)
    ensures CanReserve(OverlapAccount(account, 5), 5) && OverlapAccount(account, 9).reserved == 0
  {
    TotalAppend(account.ledger, Row(Operation.Reserve, -5, Some(Launch(0))), CountOf(Launch(0), false));
  }

  lemma OverlapRowSums(rows: seq<Row>)
    ensures Outstanding(OverlapRows(rows), Launch(0)) == Outstanding(rows, Launch(0)) - 5
    ensures Outstanding(OverlapRows(rows), Launch(1)) == Outstanding(rows, Launch(1)) + 5
  {
    var a, b := Row(Operation.Reserve, -5, Some(Launch(0))), Row(Charge(LessonGenerate), -5, Some(Launch(0)));
    var c, d := Row(Operation.Reserve, -5, Some(Launch(1))), Row(Operation.Release, 5, Some(Launch(0)));
    forall ref: Ref ensures Outstanding(OverlapRows(rows), ref)
                         == Outstanding(rows, ref) + OnRef(ref)(a) + OnRef(ref)(b) + OnRef(ref)(c) + OnRef(ref)(d) {
      TotalAppend(rows, a, OnRef(ref));
      TotalAppend(rows + [a], b, OnRef(ref));
      TotalAppend(rows + [a] + [b], c, OnRef(ref));
      TotalAppend(rows + [a] + [b] + [c], d, OnRef(ref));
    }
  }

  const CROSSED: seq<Move> :=
    [LaunchOnTrial(Video, Launch(0), 5), WriteRow(0), LaunchOnCredits(Video, Launch(1), 5), WriteRow(1), BrokerFails(0), Compensate(0)]

  function CrossedWorld(account: Account, i: nat): World {
    var held := ReserveHold(account, 5, Launch(1));
    var first, second := Tagged(Video, Trial, Launch(0), 5), Tagged(Video, Credits, Launch(1), 5);
    var procs :=
      if i == 0 then [] else if i == 1 then [Reserved(Video, Trial, Launch(0), 5)] else if i == 2 then [first]
      else if i == 3 then [first, Reserved(Video, Credits, Launch(1), 5)] else if i == 4 then [first, second]
      else if i == 5 then [LaunchClaimed(Video, Trial, Credits, Launch(0), 5), second] else [Finished, second];
    World(if i < 3 then account else if i < 6 then held else ReleaseHold(held, 5, Launch(0)), if i == 0 then 0 else 1,
          if i < 2 then LessonRow(None, None, 0) else if i < 4 then LessonRow(Some(Trial), None, 0)
          else LessonRow(if i == 4 then Some(Credits) else None, Some(Launch(1)), 5), procs,
          if i == 0 then map[] else if i < 3 then map[Launch(0) := 0] else map[Launch(0) := 0, Launch(1) := 5],
          if i < 4 then Author(0, Video) else Author(1, Video), if i < 5 then map[] else map[0 := Author(1, Video)],
          if i == 0 then {} else {0}, 0, 0, if i < 5 then 0 else 1)
  }

  lemma CrossedLeads(account: Account, i: nat)
    requires i < 6 && CanReserve(account, 5) && Unused(account.ledger, Launch(0)) && Unused(account.ledger, Launch(1))
    ensures After(CrossedWorld(account, i), CROSSED[i]) == CrossedWorld(account, i + 1)
    ensures Polite(CrossedWorld(account, i), CROSSED[i])
  {
    if i < 2 {
      CrossedTrial(account, i);
    } else if i < 4 {
      CrossedCredits(account, i);
    } else {
      CrossedBreaks(account, i);
    }
  }

  lemma CrossedTrial(account: Account, i: nat)
    requires i < 2 && Unused(account.ledger, Launch(0))
    ensures After(CrossedWorld(account, i), CROSSED[i]) == CrossedWorld(account, i + 1)
    ensures Polite(CrossedWorld(account, i), CROSSED[i])
  {
  }

  lemma CrossedCredits(account: Account, i: nat)
    requires 2 <= i < 4 && CanReserve(account, 5) && Unused(account.ledger, Launch(1))
    ensures After(CrossedWorld(account, i), CROSSED[i]) == CrossedWorld(account, i + 1)
    ensures Polite(CrossedWorld(account, i), CROSSED[i])
  {
  }

  lemma CrossedBreaks(account: Account, i: nat)
    requires 4 <= i < 6
    ensures After(CrossedWorld(account, i), CROSSED[i]) == CrossedWorld(account, i + 1)
    ensures Polite(CrossedWorld(account, i), CROSSED[i])
  {
  }

  /** Launch 0 runs on the trial; launch 1 overwrites the row; launch 0's compensation claims launch 1's `credits` and releases
      its own price under a ref that was never reserved. No finalizer is involved. */
  lemma CrossedClaimReleasesUnreserved(account: Account)
    requires HoldsAgree(account) && account.reserved == 0 && account.balance >= 5
    requires Unused(account.ledger, Launch(0)) && Unused(account.ledger, Launch(1))
    ensures AllPolite(Start(account, 0), CROSSED)
    ensures var before, end := Play(Start(account, 0), CROSSED[..5]).account, Play(Start(account, 0), CROSSED).account;
            && HoldsAgree(before) && !HoldsAgree(end) && !IsFinalized(before, Launch(0))
            && end.reserved == 0 && Outstanding(end.ledger, Launch(1)) == 5 && Outstanding(end.ledger, Launch(0)) == -5
  {
    var worlds := seq(7, (i: nat) => CrossedWorld(account, i));
    forall i: nat | i < 6 ensures LeadsPolitely(worlds, CROSSED, i) && Leads(worlds, CROSSED, i) {
      CrossedLeads(account, i);
    }
    TraceIsRun(worlds, CROSSED, 5);
    TraceIsRun(worlds, CROSSED, 6);
    TraceIsPolite(worlds, CROSSED, 6);
    assert CROSSED[..6] == CROSSED;
    CrossedSums(account);
  }

  lemma CrossedSums(account: Account)
    requires HoldsAgree(account) && account.reserved == 0 && account.balance >= 5
    requires Unused(account.ledger, Launch(0)) && Unused(account.ledger, Launch(1))
    ensures var held := ReserveHold(account, 5, Launch(1)); var end := ReleaseHold(held, 5, Launch(0));
            && HoldsAgree(held) && !HoldsAgree(end) && !IsFinalized(held, Launch(0))
            && end.reserved == 0 && Outstanding(end.ledger, Launch(1)) == 5 && Outstanding(end.ledger, Launch(0)) == -5
  {
    var held := ReserveHold(account, 5, Launch(1));
    var reserve, release := Row(Operation.Reserve, -5, Some(Launch(1))), Row(Operation.Release, 5, Some(Launch(0)));
    UnusedSums(account.ledger, Launch(0));
    UnusedSums(account.ledger, Launch(1));
    ReserveKeepsHolds(account, 5, Launch(1));
    AppendAt(account.ledger, reserve, Launch(0));
    AppendAt(account.ledger, reserve, Launch(1));
    AppendAt(held.ledger, release, Launch(0));
    AppendAt(held.ledger, release, Launch(1));
    assert ReleaseHold(held, 5, Launch(0)).ledger == held.ledger + [release];
  }
}
