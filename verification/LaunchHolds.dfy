/** What becomes of the holds of one lesson (routers/lessons.py): what a cancel, a worker and a compensation give back, who
    carries a hold until then, and the runs in which a hold is left with nobody to settle it. */
module LaunchHolds {
  import opened Common
  import opened Ledger
  import opened Billing
  import opened LaunchProtocol
  import opened LaunchOverlaps

  // ----- what a settlement does to the account -----

  /** The hold of one ref is settled: `paid` of it leaves the balance, all of it leaves the holds, no other ref is touched. */
  ghost predicate HoldSettled(a: Account, b: Account, ref: Ref, hold: nat, paid: nat) {
    && b.balance == Max(0, a.balance - paid) && b.reserved == Max(0, a.reserved - hold)
    && Outstanding(b.ledger, ref) == Outstanding(a.ledger, ref) - hold
    && BalanceSum(b.ledger) == BalanceSum(a.ledger) - paid
    && Finalizers(b.ledger, ref) > Finalizers(a.ledger, ref)
    && (forall r: Ref :: r != ref ==> Outstanding(b.ledger, r) == Outstanding(a.ledger, r))
  }

  lemma OneRowSettles(a: Account, b: Account, ref: Ref, row: Row, hold: nat, paid: nat)
    requires b.ledger == a.ledger + [row] && row.ref == Some(ref) && !row.op.Reserve?
    requires HoldMove(row) == -(hold as int) && BalanceMove(row) == -(paid as int)
    requires b.balance == Max(0, a.balance - paid) && b.reserved == Max(0, a.reserved - hold)
    ensures HoldSettled(a, b, ref, hold, paid)
  {
    AppendAt(a.ledger, row, ref);
    RowMoves(a.ledger, row);
    forall r: Ref | r != ref ensures Outstanding(b.ledger, r) == Outstanding(a.ledger, r) {
      AppendAt(a.ledger, row, r);
    }
  }

  lemma TwoRowsSettle(a: Account, mid: Account, b: Account, ref: Ref, charge: Row, release: Row, hold: nat, paid: nat)
    requires mid.ledger == a.ledger + [charge] && b.ledger == mid.ledger + [release] && paid <= hold
    requires charge.ref == Some(ref) == release.ref && charge.op.Charge? && release.op.Release?
    requires charge.delta == -(paid as int) && release.delta == hold - paid
    requires mid.balance == a.balance && mid.reserved == a.reserved
    requires b.balance == Max(0, a.balance - paid) && b.reserved == Max(0, a.reserved - hold)
    ensures HoldSettled(a, b, ref, hold, paid)
  {
    AppendAt(a.ledger, charge, ref);
    AppendAt(mid.ledger, release, ref);
    RowMoves(a.ledger, charge);
    RowMoves(mid.ledger, release);
    forall r: Ref | r != ref ensures Outstanding(b.ledger, r) == Outstanding(a.ledger, r) {
      AppendAt(a.ledger, charge, r);
      AppendAt(mid.ledger, release, r);
    }
  }

  /** A cancel that won the credits of a ref not settled yet gives the whole hold back, once and for all; the balance stays. */
  lemma CancelReturnsHold(w: World, p: nat, kind: Kind, ref: Ref, hold: nat)
    requires At(w, p) && w.procs[p] == CancelClaimed(kind, Credits, Some(ref)) && w.account.balance >= 0
    requires RefSound(w.account, ref, hold) && Finalizers(w.account.ledger, ref) == 0 && Reserves(w.account.ledger, ref) == 1
    ensures var v := After(w, CancelSettles(p));
            && HoldSettled(w.account, v.account, ref, hold, 0) && v.account.balance == w.account.balance
            && Outstanding(v.account.ledger, ref) == 0 && v.procs == w.procs[p := Finished]
            && (HoldsAgree(w.account) ==> v.account.reserved == w.account.reserved - hold)
  {
    var v := After(w, CancelSettles(p));
    SettlesShape(w, CancelSettles(p));
    MoveOnAccount(w, CancelSettles(p));
    OneRowSettles(w.account, v.account, ref, Row(Operation.Release, hold, Some(ref)), hold, 0);
    ReservedFalls(w.account, ref, hold);
  }

  lemma ReservedFalls(a: Account, ref: Ref, hold: nat)
    requires Outstanding(a.ledger, ref) == hold
    ensures HoldsAgree(a) ==> Max(0, a.reserved - hold) == a.reserved - hold
  {
    if HoldsAgree(a) {
      HoldWithinTotal(a.ledger, ref);
    }
  }

  /** A worker that won them pays what it spent, within the hold, and gives back the rest. */
  lemma WorkerSettlesHold(w: World, p: nat, ref: Ref, hold: nat)
    requires At(w, p) && w.procs[p].TaskClaimed? && w.procs[p].claimed.Credits? && w.procs[p].known == Some(ref) && w.procs[p].estimate == hold
    requires RefSound(w.account, ref, hold) && Finalizers(w.account.ledger, ref) == 0 && w.account.balance >= 0
    ensures var v, spent := After(w, TaskSettles(p)), w.procs[p].spent;
            && HoldSettled(w.account, v.account, ref, hold, if spent < 0 then 0 else if spent > hold then hold else spent)
            && Outstanding(v.account.ledger, ref) == 0 && v.procs == w.procs[p := Finished]
            && (HoldsAgree(w.account) ==> v.account.reserved == w.account.reserved - hold)
  {
    var v, paid := After(w, TaskSettles(p)), Clamped(w.procs[p].spent, hold);
    var work := if w.procs[p].kind.Video? then LessonGenerate else VisionAnalyze;
    SettlesShape(w, TaskSettles(p));
    MoveOnAccount(w, TaskSettles(p));
    FinalizeSettles(w.account, v.account, ref, hold, w.procs[p].spent, work);
    ReservedFalls(w.account, ref, hold);
  }

  /** The charge it writes names the work: a lesson's video, or its analysis. */
  lemma WorkerChargesWork(w: World, p: nat, ref: Ref)
    requires At(w, p) && w.procs[p].TaskClaimed? && w.procs[p].claimed.Credits? && w.procs[p].known == Some(ref)
    ensures var rows, later := w.account.ledger, After(w, TaskSettles(p)).account.ledger;
            && |rows| <= |later|
            && forall i :: |rows| <= i < |later| && later[i].op.Charge? ==>
                 later[i].op.work == if w.procs[p].kind.Video? then LessonGenerate else VisionAnalyze
  {
    MoveOnAccount(w, TaskSettles(p));
    if !IsFinalized(w.account, ref) {
      FinalizeRows(w.account, ref, w.procs[p].estimate, w.procs[p].spent, if w.procs[p].kind.Video? then LessonGenerate else VisionAnalyze);
    }
  }

  lemma FinalizeSettles(a: Account, b: Account, ref: Ref, hold: nat, spent: int, work: Work)
    requires !IsFinalized(a, ref) && b == Finalize(a, ref, hold, spent, work)
    ensures HoldSettled(a, b, ref, hold, Clamped(spent, hold))
  {
    var paid := Clamped(spent, hold);
    var charge, release := PaidRow(paid, ref, work), RestRow(paid, hold, ref);
    FinalizeRows(a, ref, hold, spent, work);
    if paid == 0 {
      OneRowSettles(a, b, ref, release, hold, 0);
    } else if paid == hold {
      OneRowSettles(a, b, ref, charge, hold, paid);
    } else {
      TwoRowsSettle(a, a.(ledger := a.ledger + [charge]), b, ref, charge, release, hold, paid);
    }
  }

  /** A compensation that won credits gives back what its own launch holds, settled already or not. */
  lemma CompensationReturnsHold(w: World, p: nat)
    requires At(w, p) && w.procs[p].LaunchClaimed? && w.procs[p].claimed.Credits? && w.account.balance >= 0
    ensures var v, ref, hold := After(w, Compensate(p)), w.procs[p].ref, w.procs[p].estimate;
            && HoldSettled(w.account, v.account, ref, hold, 0) && v.account.balance == w.account.balance
            && v.procs == w.procs[p := Finished]
  {
    var v, ref, hold := After(w, Compensate(p)), w.procs[p].ref, w.procs[p].estimate;
    SettlesShape(w, Compensate(p));
    MoveOnAccount(w, Compensate(p));
    OneRowSettles(w.account, v.account, ref, Row(Operation.Release, hold, Some(ref)), hold, 0);
  }

  /** A launch on credits takes exactly its price from what is available, or is refused and changes nothing. */
  lemma LaunchTakesHold(w: World, kind: Kind, ref: Ref, price: nat)
    ensures var v := After(w, LaunchOnCredits(kind, ref, price));
            if price > w.account.balance - w.account.reserved then v == w
            else
              && v.account.balance == w.account.balance && v.account.reserved == w.account.reserved + price
              && Outstanding(v.account.ledger, ref) == Outstanding(w.account.ledger, ref) + price
              && (forall r: Ref :: r != ref ==> Outstanding(v.account.ledger, r) == Outstanding(w.account.ledger, r))
              && v.procs == w.procs + [Reserved(kind, Credits, ref, price)] && v.minted == w.minted[ref := price]
  {
    if price <= w.account.balance - w.account.reserved {
      var row := Row(Operation.Reserve, -(price as int), Some(ref));
      AppendAt(w.account.ledger, row, ref);
      forall r: Ref | r != ref
        ensures Outstanding(w.account.ledger + [row], r) == Outstanding(w.account.ledger, r)
      {
        AppendAt(w.account.ledger, row, r);
      }
    }
  }

  /** Nothing else the lesson does touches the account: only these settlements, the launch on credits, and what happens elsewhere. */
  lemma OthersLeaveAccount(w: World, m: Move)
    requires !m.LaunchOnCredits? && !m.ElsewhereOnAccount?
    requires !(m.Compensate? && At(w, m.p) && w.procs[m.p].LaunchClaimed? && w.procs[m.p].claimed.Credits?)
    requires !(m.CancelSettles? && At(w, m.p) && w.procs[m.p].CancelClaimed? && w.procs[m.p].claimed.Credits? && w.procs[m.p].known.Some?)
    requires !(m.TaskSettles? && At(w, m.p) && w.procs[m.p].TaskClaimed? && w.procs[m.p].claimed.Credits? && w.procs[m.p].known.Some?)
    ensures After(w, m).account == w.account
  {
    MoveOnAccount(w, m);
  }

  // ----- the life of a process, of the row, of the slots -----

  /** What each process becomes, whatever the move. */
  ghost function Becomes(proc: Process, tag: Option<Via>, m: Move, i: nat): Process {
    match proc
    case Reserved(kind, own, ref, estimate) => if m == WriteRow(i) then Tagged(kind, own, ref, estimate) else proc
    case Tagged(kind, own, ref, estimate) =>
      if m == BrokerAccepts(i) then Finished
      else if m != BrokerFails(i) then proc
      else if tag.None? then Finished else LaunchClaimed(kind, own, tag.value, ref, estimate)
    case CancelRead(kind, known) =>
      if m != CancelClaims(i) then proc else if tag.None? then Finished else CancelClaimed(kind, tag.value, known)
    case TaskRead(kind, known, estimate) =>
      if !m.TaskClaims? || m.p != i then proc
      else if tag.None? then Finished else TaskClaimed(kind, tag.value, known, estimate, m.spent, m.keepSlot)
    case LaunchClaimed(_, _, _, _, _) => if m == Compensate(i) then Finished else proc
    case CancelClaimed(_, _, _) => if m == CancelSettles(i) then Finished else proc
    case TaskClaimed(_, _, _, _, _, _) => if m == TaskSettles(i) then Finished else proc
    case Finished => proc
  }

  lemma ProcessSteps(w: World, m: Move, i: nat)
    requires i < |w.procs|
    ensures |After(w, m).procs| >= |w.procs| && After(w, m).procs[i] == Becomes(w.procs[i], w.lesson.billedVia, m, i)
  {
    if IsClaim(m) {
      ClaimSteps(w, m, i);
    } else if IsSettlement(m) {
      SettlesShape(w, m);
    } else {
      OtherSteps(w, m, i);
    }
  }

  lemma ClaimSteps(w: World, m: Move, i: nat)
    requires i < |w.procs| && IsClaim(m)
    ensures |Claims(w, m).procs| == |w.procs| && Claims(w, m).procs[i] == Becomes(w.procs[i], w.lesson.billedVia, m, i)
  {
    ClaimsShape(w, m);
  }

  lemma OtherSteps(w: World, m: Move, i: nat)
    requires i < |w.procs| && !IsClaim(m) && !IsSettlement(m)
    ensures |After(w, m).procs| >= |w.procs| && After(w, m).procs[i] == Becomes(w.procs[i], w.lesson.billedVia, m, i)
  {
    ElsewhereShape(w, m);
  }

  /** The process a move starts, if any. */
  ghost function Started(w: World, m: Move): seq<Process> {
    match m
    case LaunchOnCredits(kind, ref, estimate) =>
      if estimate <= w.account.balance - w.account.reserved then [Reserved(kind, Credits, ref, estimate)] else []
    case LaunchOnTrial(kind, ref, estimate) => if w.used < 2 then [Reserved(kind, Trial, ref, estimate)] else []
    case CancelBegins(kind) => [CancelRead(kind, w.lesson.billingRef)]
    case TaskBegins(kind) => if w.lesson.billedVia.Some? then [TaskRead(kind, w.lesson.billingRef, w.lesson.estimate)] else []
    case _ => []
  }

  lemma ProcessStarts(w: World, m: Move)
    ensures |After(w, m).procs| == |w.procs| + |Started(w, m)|
    ensures Started(w, m) != [] ==> After(w, m).procs[|w.procs|] == Started(w, m)[0] && |Started(w, m)| == 1
  {
    if IsClaim(m) {
      ClaimsShape(w, m);
    } else if IsSettlement(m) {
      SettlesShape(w, m);
    } else {
      ElsewhereShape(w, m);
    }
  }

  /** A launch whose hold or slot is taken writes the row. */
  predicate Writes(w: World, m: Move) {
    m.WriteRow? && At(w, m.p) && w.procs[m.p].Reserved?
  }

  /** A launch whose enqueueing failed, a cancel or a worker finds the tag still there. */
  predicate Wins(w: World, m: Move) {
    && w.lesson.billedVia.Some?
    && match m
       case BrokerFails(p) => At(w, p) && w.procs[p].Tagged?
       case CancelClaims(p) => At(w, p) && w.procs[p].CancelRead?
       case TaskClaims(p, _, _) => At(w, p) && w.procs[p].TaskRead?
       case _ => false
  }

  /** The row: a launch writes its own tag over whatever is there, a claim takes the tag away, nothing else changes it. */
  lemma RowSteps(w: World, m: Move)
    ensures var v := After(w, m);
            if Writes(w, m) then
              var proc := w.procs[m.p];
              && v.author == Author(m.p, proc.kind) && v.claims == 0 && v.tags == w.tags
              && v.lesson == if proc.own.Credits? then LessonRow(Some(Credits), Some(proc.ref), proc.estimate) else LessonRow(Some(Trial), None, 0)
            else if Wins(w, m) then
              v.author == w.author && v.lesson == w.lesson.(billedVia := None) && v.claims == w.claims + 1 && v.tags == w.tags[m.p := w.author]
            else v.author == w.author && v.lesson == w.lesson && v.claims == w.claims && v.tags == w.tags
  {
    if IsClaim(m) {
      ClaimsShape(w, m);
    } else if IsSettlement(m) {
      SettlesShape(w, m);
    } else {
      ElsewhereShape(w, m);
    }
  }

  /** The settlement of a video claimant of a trial tag. */
  predicate SettlesTrialVideo(w: World, m: Move) {
    IsSettlement(m) && MaySettle(w, m) && w.procs[m.p].claimed.Trial? && w.procs[m.p].kind.Video?
  }

  /** Such a settlement takes the tag's slot from those held: the worker that keeps it leaves the counter, any other lowers it. */
  lemma SlotSettles(w: World, m: Move)
    requires SettlesTrialVideo(w, m)
    ensures var v := After(w, m);
            && v.others == w.others && v.held == w.held - (if m.p in w.tags then {w.tags[m.p].launch} else {})
            && if m.TaskSettles? && w.procs[m.p].keepSlot
               then v.used == w.used && v.kept == w.kept + (if m.p in w.tags && w.tags[m.p].launch in w.held then 1 else 0)
               else v.used == Max(0, w.used - 1) && v.kept == w.kept
  {
  }

  /** Besides that, slots are taken by video launches on the trial and taken and returned elsewhere; nothing else moves them. */
  lemma SlotSteps(w: World, m: Move)
    requires !SettlesTrialVideo(w, m)
    ensures var v := After(w, m);
            v.kept == w.kept
            && if m.LaunchOnTrial? && m.kind.Video? && w.used < 2 then
                 v.used == w.used + 1 && v.held == w.held + {|w.procs|} && v.others == w.others
               else if m.ElsewhereTakesSlot? && w.used < 2 then
                 v.used == w.used + 1 && v.others == w.others + 1 && v.held == w.held
               else if m.ElsewhereReturnsSlot? && w.others > 0 && w.used > 0 then
                 v.used == w.used - 1 && v.others == w.others - 1 && v.held == w.held
               else v.used == w.used && v.others == w.others && v.held == w.held
  {
    if IsClaim(m) {
      ClaimsShape(w, m);
    } else if !IsSettlement(m) {
      ElsewhereSlots(w, m);
    }
  }

  lemma ElsewhereSlots(w: World, m: Move)
    requires !IsClaim(m) && !IsSettlement(m)
    ensures var v := After(w, m);
            v.kept == w.kept
            && if m.LaunchOnTrial? && m.kind.Video? && w.used < 2 then
                 v.used == w.used + 1 && v.held == w.held + {|w.procs|} && v.others == w.others
               else if m.ElsewhereTakesSlot? && w.used < 2 then
                 v.used == w.used + 1 && v.others == w.others + 1 && v.held == w.held
               else if m.ElsewhereReturnsSlot? && w.others > 0 && w.used > 0 then
                 v.used == w.used - 1 && v.others == w.others - 1 && v.held == w.held
               else v.used == w.used && v.others == w.others && v.held == w.held
  {
  }

  // ----- who carries a hold -----

  /** This process will settle the ref, or has yet to write it to the row. */
  predicate Carries(proc: Process, ref: Ref) {
    || (proc.Reserved? && proc.own.Credits? && proc.ref == ref)
    || (Claiming(proc) && proc.claimed.Credits? && KnownRef(proc) == Some(ref))
  }

  /** Somebody carries the ref, or the row does, for whoever claims it. */
  ghost predicate Carried(w: World, ref: Ref) {
    || (w.lesson.billedVia == Some(Credits) && w.lesson.billingRef == Some(ref))
    || exists i :: 0 <= i < |w.procs| && Carries(w.procs[i], ref)
  }

  ghost predicate AllCarried(w: World) {
    forall ref :: ref in w.minted && Outstanding(w.account.ledger, ref) > 0 ==> Carried(w, ref)
  }

  /** A ref is on no row and known to no process before its launch writes the row; nobody has claimed it while its tag is there. */
  ghost predicate RefsApart(w: World) {
    && (forall i :: 0 <= i < |w.procs| && w.procs[i].Reserved? ==> Unwritten(w, i))
    && (w.lesson.billedVia == Some(Credits) ==> w.lesson.billingRef.Some? && Unclaimed(w, w.lesson.billingRef))
  }

  ghost predicate Unwritten(w: World, i: nat)
    requires i < |w.procs| && w.procs[i].Reserved?
  {
    && w.lesson.billingRef != Some(w.procs[i].ref)
    && forall j :: 0 <= j < |w.procs| && j != i ==> KnownRef(w.procs[j]) != Some(w.procs[i].ref)
  }

  ghost predicate Unclaimed(w: World, ref: Option<Ref>) {
    forall i :: 0 <= i < |w.procs| && Claiming(w.procs[i]) ==> KnownRef(w.procs[i]) != ref
  }

  /** The row's credits go to somebody else: a launch writes over them, or a claimant wins them that knows another ref, for it
      read the row before the launch wrote it. */
  ghost predicate Strands(w: World, m: Move) {
    && w.lesson.billedVia == Some(Credits) && w.lesson.billingRef.Some?
    && Outstanding(w.account.ledger, w.lesson.billingRef.value) > 0
    && ((m.WriteRow? && At(w, m.p) && w.procs[m.p].Reserved?)
        || (IsClaim(m) && MayClaim(w, m) && KnownRef(w.procs[m.p]) != w.lesson.billingRef))
  }

  // ----- refs stay apart -----

  /** A process keeps the ref it knows until it is finished. */
  lemma KnownStays(w: World, m: Move, i: nat)
    requires i < |w.procs|
    ensures var v := After(w, m);
            && |v.procs| >= |w.procs| && (KnownRef(v.procs[i]) == KnownRef(w.procs[i]) || v.procs[i] == Finished)
            && (v.procs[i].Reserved? ==> v.procs[i] == w.procs[i])
            && (Claiming(v.procs[i]) && !Claiming(w.procs[i]) ==>
                  IsClaim(m) && m.p == i && MayClaim(w, m) && w.lesson.billedVia.Some? && v.procs[i].claimed == w.lesson.billedVia.value)
  {
    ProcessSteps(w, m, i);
    KnownBecomes(w.procs[i], w.lesson.billedVia, m, i);
  }

  lemma KnownBecomes(proc: Process, tag: Option<Via>, m: Move, i: nat)
    ensures var next := Becomes(proc, tag, m, i);
            && (KnownRef(next) == KnownRef(proc) || next == Finished) && (next.Reserved? ==> next == proc)
            && (Claiming(next) && !Claiming(proc) ==>
                  && IsClaim(m) && m.p == i && tag.Some? && next.claimed == tag.value
                  && if m.BrokerFails? then proc.Tagged? else if m.CancelClaims? then proc.CancelRead? else proc.TaskRead?)
  {
  }

  /** A new process is a launch under its fresh ref, or knows the ref on the row. */
  lemma StartedKnows(w: World, m: Move, i: nat)
    requires |w.procs| <= i < |After(w, m).procs|
    ensures var proc := After(w, m).procs[i];
            if proc.Reserved? then IsLaunch(m) && proc.ref == m.ref && i == |w.procs| && |After(w, m).procs| == i + 1
            else !Claiming(proc) && KnownRef(proc) == w.lesson.billingRef
  {
    ProcessStarts(w, m);
  }

  /** The row is written by a launch under its own ref, or keeps its ref. */
  lemma RefOnRow(w: World, m: Move)
    ensures var v := After(w, m);
            if m.WriteRow? && At(w, m.p) && w.procs[m.p].Reserved? then
              v.lesson.billingRef == (if w.procs[m.p].own.Credits? then Some(w.procs[m.p].ref) else None)
              && (v.lesson.billedVia == Some(Credits) <==> w.procs[m.p].own.Credits?)
            else v.lesson.billingRef == w.lesson.billingRef && (v.lesson.billedVia.Some? ==> v.lesson == w.lesson)
  {
    RowSteps(w, m);
  }

  lemma KnownIsMinted(w: World, i: nat)
    requires Sound(w) && i < |w.procs| && KnownRef(w.procs[i]).Some?
    ensures KnownRef(w.procs[i]).value in w.minted
  {
    assert ProcSound(w.account, w.minted, w.procs[i]);
  }

  lemma UnwrittenStays(w: World, m: Move, i: nat)
    requires Sound(w) && Polite(w, m) && RefsApart(w) && i < |After(w, m).procs| && After(w, m).procs[i].Reserved?
    ensures Unwritten(After(w, m), i)
  {
    var v := After(w, m);
    RefOnRow(w, m);
    if i < |w.procs| {
      KnownStays(w, m, i);
      KnownIsMinted(w, i);
      assert Unwritten(w, i);
      if m.WriteRow? && At(w, m.p) && w.procs[m.p].Reserved? {
        ProcessSteps(w, m, m.p);
        assert m.p != i && KnownRef(w.procs[m.p]) == Some(w.procs[m.p].ref);
      }
    } else {
      StartedKnows(w, m, i);
    }
    forall j | 0 <= j < |v.procs| && j != i ensures KnownRef(v.procs[j]) != Some(v.procs[i].ref) {
      OtherKnows(w, m, i, j);
    }
  }

  lemma OtherKnows(w: World, m: Move, i: nat, j: nat)
    requires Sound(w) && Polite(w, m) && RefsApart(w) && i < |After(w, m).procs| && After(w, m).procs[i].Reserved?
    requires j < |After(w, m).procs| && j != i
    ensures KnownRef(After(w, m).procs[j]) != Some(After(w, m).procs[i].ref)
  {
    KnowsOldOrOwn(w, m, j);
    if i < |w.procs| {
      KnownStays(w, m, i);
      KnownIsMinted(w, i);
      assert Unwritten(w, i);
    } else {
      StartedKnows(w, m, i);
    }
  }

  /** What a process knows it knew before, or read off the row, or is the ref it has just taken. */
  lemma KnowsOldOrOwn(w: World, m: Move, j: nat)
    requires Sound(w) && Polite(w, m) && j < |After(w, m).procs|
    ensures var known := KnownRef(After(w, m).procs[j]);
            || known.None?
            || (j < |w.procs| && known == KnownRef(w.procs[j]) && known.value in w.minted)
            || (known == w.lesson.billingRef && known.value in w.minted)
            || (IsLaunch(m) && known == Some(m.ref) && m.ref !in w.minted && j == |w.procs| && |After(w, m).procs| == j + 1)
  {
    if j < |w.procs| {
      KnownStays(w, m, j);
      if KnownRef(w.procs[j]).Some? {
        KnownIsMinted(w, j);
      }
    } else {
      StartedKnows(w, m, j);
    }
  }

  lemma UnclaimedStays(w: World, m: Move)
    requires Sound(w) && RefsApart(w) && After(w, m).lesson.billedVia == Some(Credits)
    ensures After(w, m).lesson.billingRef.Some? && Unclaimed(After(w, m), After(w, m).lesson.billingRef)
  {
    var v := After(w, m);
    RefOnRow(w, m);
    forall i | 0 <= i < |v.procs| && Claiming(v.procs[i]) ensures KnownRef(v.procs[i]) != v.lesson.billingRef {
      if i < |w.procs| {
        ClaimantKnows(w, m, i);
      } else {
        StartedKnows(w, m, i);
      }
    }
  }

  /** Where the tag stays or is new, a claimant was one before, and knows another ref. */
  lemma ClaimantKnows(w: World, m: Move, i: nat)
    requires Sound(w) && RefsApart(w) && After(w, m).lesson.billedVia == Some(Credits)
    requires i < |w.procs| && i < |After(w, m).procs| && Claiming(After(w, m).procs[i])
    ensures KnownRef(After(w, m).procs[i]) != After(w, m).lesson.billingRef
  {
    RefOnRow(w, m);
    KnownStays(w, m, i);
    RowSteps(w, m);
    if m.WriteRow? && At(w, m.p) && w.procs[m.p].Reserved? {
      assert Unwritten(w, m.p) && Claiming(w.procs[i]);
    }
  }

  lemma MoveKeepsApart(w: World, m: Move)
    requires Sound(w) && Polite(w, m) && RefsApart(w)
    ensures RefsApart(After(w, m))
  {
    var v := After(w, m);
    forall i | 0 <= i < |v.procs| && v.procs[i].Reserved? ensures Unwritten(v, i) {
      UnwrittenStays(w, m, i);
    }
    if v.lesson.billedVia == Some(Credits) {
      UnclaimedStays(w, m);
    }
  }

  // ----- one move -----

  /** A settlement leaves nothing outstanding under the ref it settles. */
  lemma SettlementEmpties(w: World, m: Move, ref: Ref)
    requires Sound(w) && Polite(w, m) && IsSettlement(m) && MaySettle(w, m) && ref in w.minted
    requires w.procs[m.p].claimed.Credits? && KnownRef(w.procs[m.p]) == Some(ref)
    ensures Outstanding(After(w, m).account.ledger, ref) <= 0
  {
    MoveOnAccount(w, m);
    AccountKeepsRef(w, m, ref);
    InducedSettles(w, m, ref);
    StepEmpties(w.account, Induced(w, m).value, ref, w.minted[ref]);
  }

  lemma StepEmpties(a: Account, step: Step, ref: Ref, hold: nat)
    requires RefSound(a, ref, hold) && SettlesHold(a, step, ref, hold) && RefSound(Next(a, step), ref, hold)
    ensures Outstanding(Next(a, step).ledger, ref) <= 0
  {
    if Finalizers(a.ledger, ref) == 0 && hold > 0 {
      SettlingFinalizes(a, step);
    }
  }

  /** What is outstanding after a move was outstanding before it, or is a new launch's. */
  lemma OutstandingBefore(w: World, m: Move, ref: Ref)
    requires Sound(w) && Polite(w, m) && ref in w.minted && Outstanding(After(w, m).account.ledger, ref) > 0
    ensures Outstanding(w.account.ledger, ref) > 0
  {
    MoveOnAccount(w, m);
    assert RefSound(w.account, ref, w.minted[ref]);
    AccountKeepsRef(w, m, ref);
    if Induced(w, m).Some? {
      var step := Induced(w, m).value;
      if step.Granting? || step.Purchasing? || step.Renewing? || step.ref != ref {
        OtherStep(w.account, step, ref);
      } else {
        InducedSettles(w, m, ref);
        if Finalizers(w.account.ledger, ref) >= 1 {
          StaysFinalized(w.account, step, ref);
        }
      }
    }
  }

  lemma StaysFinalized(a: Account, step: Step, ref: Ref)
    requires (step.Releasing? || step.ReleasingIfHeld? || step.Finalizing?) && step.ref == ref && Finalizers(a.ledger, ref) >= 1
    ensures Finalizers(Next(a, step).ledger, ref) >= 1
  {
    SettlingFinalizes(a, step);
    if Next(a, step) != a {
      CountsNonNegative(Next(a, step).ledger, ref);
    }
  }

  /** A carrier goes on carrying, hands the ref to the row, or has settled it. */
  lemma CarrierAfter(w: World, m: Move, ref: Ref, i: nat)
    requires Sound(w) && Polite(w, m) && ref in w.minted && i < |w.procs| && Carries(w.procs[i], ref)
    ensures Carried(After(w, m), ref) || Outstanding(After(w, m).account.ledger, ref) <= 0
  {
    var v := After(w, m);
    ProcessSteps(w, m, i);
    if v.procs[i] == w.procs[i] {
      assert Carries(v.procs[i], ref);
    } else {
      CarrierMoves(w.procs[i], w.lesson.billedVia, m, i, ref);
      if w.procs[i].Reserved? {
        RowSteps(w, m);
      } else {
        SettlementEmpties(w, m, ref);
      }
    }
  }

  lemma CarrierMoves(proc: Process, tag: Option<Via>, m: Move, i: nat, ref: Ref)
    requires Carries(proc, ref) && Becomes(proc, tag, m, i) != proc
    ensures if proc.Reserved? then m == WriteRow(i)
            else
              && IsSettlement(m) && m.p == i && Claiming(proc) && proc.claimed.Credits? && KnownRef(proc) == Some(ref)
              && if m.Compensate? then proc.LaunchClaimed? else if m.CancelSettles? then proc.CancelClaimed? else proc.TaskClaimed?
  {
  }

  /** The ref on the row stays there, or goes to the claimant that knows it. */
  lemma RowAfter(w: World, m: Move, ref: Ref)
    requires w.lesson.billedVia == Some(Credits) && w.lesson.billingRef == Some(ref) && !Strands(w, m)
    requires Outstanding(w.account.ledger, ref) > 0
    ensures Carried(After(w, m), ref)
  {
    var v := After(w, m);
    RowSteps(w, m);
    if IsClaim(m) && MayClaim(w, m) {
      ProcessSteps(w, m, m.p);
      assert Carries(v.procs[m.p], ref);
    }
  }

  lemma CarriedAfter(w: World, m: Move, ref: Ref)
    requires Sound(w) && Polite(w, m) && AllCarried(w) && !Strands(w, m)
    requires ref in After(w, m).minted && Outstanding(After(w, m).account.ledger, ref) > 0
    ensures Carried(After(w, m), ref)
  {
    var v := After(w, m);
    if ref in w.minted {
      OutstandingBefore(w, m, ref);
      assert Carried(w, ref);
      if w.lesson.billedVia == Some(Credits) && w.lesson.billingRef == Some(ref) {
        RowAfter(w, m, ref);
      } else {
        var i :| 0 <= i < |w.procs| && Carries(w.procs[i], ref);
        CarrierAfter(w, m, ref, i);
      }
    } else {
      NewHold(w, m, ref);
    }
  }

  lemma NewHold(w: World, m: Move, ref: Ref)
    requires Polite(w, m) && ref !in w.minted && ref in After(w, m).minted && Outstanding(After(w, m).account.ledger, ref) > 0
    ensures Carried(After(w, m), ref)
  {
    var v := After(w, m);
    if !IsLaunch(m) {
      MintsNothing(w, m);
    } else if m.LaunchOnCredits? {
      LaunchTakesHold(w, m.kind, m.ref, m.estimate);
      assert Carries(v.procs[|w.procs|], ref);
    } else {
      UnusedSums(w.account.ledger, m.ref);
    }
  }

  /** After a stranding move nobody carries the ref that was on the row, though its hold is still there. */
  lemma StrandedAfter(w: World, m: Move)
    requires Sound(w) && RefsApart(w) && Strands(w, m)
    ensures !AllCarried(After(w, m))
  {
    var v, ref := After(w, m), w.lesson.billingRef.value;
    MoveOnAccount(w, m);
    MintsNothing(w, m);
    StrandedRow(w, m);
    forall i | 0 <= i < |v.procs| ensures !Carries(v.procs[i], ref) {
      StrangerCarries(w, m, i);
    }
    assert ref in v.minted && Outstanding(v.account.ledger, ref) > 0 && !Carried(v, ref);
  }

  lemma StrandedRow(w: World, m: Move)
    requires RefsApart(w) && Strands(w, m)
    ensures After(w, m).lesson.billedVia == Some(Credits) ==> After(w, m).lesson.billingRef != w.lesson.billingRef
  {
    RowSteps(w, m);
    if m.WriteRow? {
      assert Unwritten(w, m.p);
    }
  }

  lemma StrangerCarries(w: World, m: Move, i: nat)
    requires Sound(w) && RefsApart(w) && Strands(w, m) && i < |After(w, m).procs|
    ensures !Carries(After(w, m).procs[i], w.lesson.billingRef.value)
  {
    if i < |w.procs| {
      KnownStays(w, m, i);
      assert w.procs[i].Reserved? ==> Unwritten(w, i);
    } else {
      StartedKnows(w, m, i);
    }
  }

  /** From a world in which every hold is carried, one move leaves them all carried if and only if it does not strand the row's. */
  lemma MoveCarriesIff(w: World, m: Move)
    requires Sound(w) && Polite(w, m) && RefsApart(w) && AllCarried(w)
    ensures AllCarried(After(w, m)) <==> !Strands(w, m)
  {
    if Strands(w, m) {
      StrandedAfter(w, m);
    } else {
      forall ref | ref in After(w, m).minted && Outstanding(After(w, m).account.ledger, ref) > 0 ensures Carried(After(w, m), ref) {
        CarriedAfter(w, m, ref);
      }
    }
  }

  // ----- whole runs -----

  ghost predicate AlwaysCarried(w: World, moves: seq<Move>) {
    AllCarried(Play(w, moves)) && (moves == [] || AlwaysCarried(w, moves[..|moves| - 1]))
  }

  ghost predicate NeverStrands(w: World, moves: seq<Move>) {
    moves == [] || (NeverStrands(w, moves[..|moves| - 1]) && !Strands(Play(w, moves[..|moves| - 1]), moves[|moves| - 1]))
  }

  lemma {:induction false} ApartInEveryRun(account: Account, others: nat, moves: seq<Move>)
    requires AllPolite(Start(account, others), moves)
    ensures RefsApart(Play(Start(account, others), moves))
  {
    if moves != [] {
      var front := moves[..|moves| - 1];
      ApartInEveryRun(account, others, front);
      SoundInEveryRun(account, others, front);
      MoveKeepsApart(Play(Start(account, others), front), moves[|moves| - 1]);
    }
  }

  /** Over every run, overlapping launches included: at every moment each hold of the lesson is on its row or in the hands of a
      process that will settle it, if and only if no launch writes over credits nobody has claimed and no claimant wins the
      credits of another ref than the one it read. */
  lemma {:induction false} CarriedIffNeverStranded(account: Account, others: nat, moves: seq<Move>)
    requires AllPolite(Start(account, others), moves)
    ensures AlwaysCarried(Start(account, others), moves) <==> NeverStrands(Start(account, others), moves)
  {
    if moves != [] {
      var front := moves[..|moves| - 1];
      CarriedIffNeverStranded(account, others, front);
      if NeverStrands(Start(account, others), front) {
        SoundInEveryRun(account, others, front);
        ApartInEveryRun(account, others, front);
        MoveCarriesIff(Play(Start(account, others), front), moves[|moves| - 1]);
      }
    }
  }

  predicate AllFinished(w: World) {
    w.lesson.billedVia.None? && forall i :: 0 <= i < |w.procs| ==> w.procs[i].Finished?
  }

  /** So a lesson leaves no hold behind: when such a run has ended, every process finished and the tag claimed, nothing is
      outstanding under any of its refs, and nothing less than nothing if the holds are right. */
  lemma NoHoldIsLeft(account: Account, others: nat, moves: seq<Move>, ref: Ref)
    requires AllPolite(Start(account, others), moves) && NeverStrands(Start(account, others), moves)
    requires AllFinished(Play(Start(account, others), moves)) && ref in Play(Start(account, others), moves).minted
    ensures Outstanding(Play(Start(account, others), moves).account.ledger, ref) <= 0
    ensures HoldsAgree(Play(Start(account, others), moves).account) ==>
              Outstanding(Play(Start(account, others), moves).account.ledger, ref) == 0
  {
    CarriedIffNeverStranded(account, others, moves);
    assert !Carried(Play(Start(account, others), moves), ref);
  }

  /** A cancel that read the row before the latest launch wrote it wins the new credits and releases what it knows: the new hold
      stays, and no later claim finds a tag. */
  lemma StaleCancelStrands(w: World, p: nat, kind: Kind, known: Ref)
    requires Sound(w) && RefsApart(w) && At(w, p) && w.procs[p] == CancelRead(kind, Some(known))
    requires w.lesson.billedVia == Some(Credits) && w.lesson.billingRef.Some? && w.lesson.billingRef.value != known
    requires Finalizers(w.account.ledger, known) >= 1 && Outstanding(w.account.ledger, w.lesson.billingRef.value) > 0
    ensures var v, ref := After(After(w, CancelClaims(p)), CancelSettles(p)), w.lesson.billingRef.value;
            && v.procs[p].Finished? && v.lesson.billedVia.None? && !Carried(v, ref)
            && v.account == w.account && Outstanding(v.account.ledger, ref) > 0
  {
    var u := After(w, CancelClaims(p));
    var v, ref := After(u, CancelSettles(p)), w.lesson.billingRef.value;
    StaleCancelClaims(w, p, kind, known);
    StaleCancelReleases(w.account, known, w.minted[known]);
    MoveOnAccount(u, CancelSettles(p));
    ProcessSteps(u, CancelSettles(p), p);
    RowSteps(u, CancelSettles(p));
    forall i | 0 <= i < |v.procs| ensures !Carries(v.procs[i], ref) {
      SettlesShape(u, CancelSettles(p));
      StrangerCarries(w, CancelClaims(p), i);
      KnownStays(u, CancelSettles(p), i);
    }
  }

  lemma StaleCancelClaims(w: World, p: nat, kind: Kind, known: Ref)
    requires Sound(w) && At(w, p) && w.procs[p] == CancelRead(kind, Some(known)) && w.lesson.billedVia == Some(Credits)
    ensures var u := After(w, CancelClaims(p));
            u.account == w.account && |u.procs| == |w.procs| && u.procs[p] == CancelClaimed(kind, Credits, Some(known)) && u.lesson.billedVia.None?
    ensures known in w.minted && RefSound(w.account, known, w.minted[known])
  {
    KnownIsMinted(w, p);
    ProcessSteps(w, CancelClaims(p), p);
    ClaimsShape(w, CancelClaims(p));
  }

  lemma StaleCancelReleases(a: Account, known: Ref, hold: nat)
    requires RefSound(a, known, hold) && Finalizers(a.ledger, known) >= 1
    ensures ReleaseIfHeld(a, known) == a
  {
  }

  const STALE: seq<Move> :=
    [LaunchOnCredits(Video, Launch(0), 5), WriteRow(0), CancelBegins(Video), BrokerFails(0), Compensate(0),
     LaunchOnCredits(Video, Launch(1), 5), WriteRow(2), BrokerAccepts(2), CancelClaims(1), CancelSettles(1)]

  function StaleAccount(account: Account, i: nat): Account {
    var held := ReserveHold(account, 5, Launch(0));
    var released := ReleaseHold(held, 5, Launch(0));
    if i == 0 then account else if i < 5 then held else if i == 5 then released else ReserveHold(released, 5, Launch(1))
  }

  function StaleProcs(i: nat): seq<Process> {
    var first, second, cancel := Tagged(Video, Credits, Launch(0), 5), Tagged(Video, Credits, Launch(1), 5), CancelRead(Video, Some(Launch(0)));
    if i == 0 then []
    else if i == 1 then [Reserved(Video, Credits, Launch(0), 5)]
    else if i == 2 then [first]
    else if i == 3 then [first, cancel]
    else if i == 4 then [LaunchClaimed(Video, Credits, Credits, Launch(0), 5), cancel]
    else if i == 5 then [Finished, cancel]
    else if i == 6 then [Finished, cancel, Reserved(Video, Credits, Launch(1), 5)]
    else if i == 7 then [Finished, cancel, second]
    else if i == 8 then [Finished, cancel, Finished]
    else if i == 9 then [Finished, CancelClaimed(Video, Credits, Some(Launch(0))), Finished]
    else [Finished, Finished, Finished]
  }

  function StaleWorld(account: Account, i: nat): World {
    World(StaleAccount(account, i), 0,
          LessonRow(if 2 <= i < 4 || 7 <= i < 9 then Some(Credits) else None,
                    if i < 2 then None else if i < 7 then Some(Launch(0)) else Some(Launch(1)), if i < 2 then 0 else 5),
          StaleProcs(i),
          if i == 0 then map[] else if i < 6 then map[Launch(0) := 5] else map[Launch(0) := 5, Launch(1) := 5],
          if i < 7 then Author(0, Video) else Author(2, Video),
          if i < 4 then map[] else if i < 9 then map[0 := Author(0, Video)] else map[0 := Author(0, Video), 1 := Author(2, Video)],
          {}, 0, 0, if 4 <= i < 7 || 9 <= i then 1 else 0)
  }

  lemma StaleFirst(account: Account, i: nat)
    requires i < 3 && CanReserve(account, 5) && Unused(account.ledger, Launch(0))
    ensures After(StaleWorld(account, i), STALE[i]) == StaleWorld(account, i + 1) && Orderly(StaleWorld(account, i), STALE[i])
  {
  }

  lemma StaleFails(account: Account, i: nat)
    requires 3 <= i < 5
    ensures After(StaleWorld(account, i), STALE[i]) == StaleWorld(account, i + 1) && Orderly(StaleWorld(account, i), STALE[i])
  {
  }

  lemma StaleRelaunch(account: Account, i: nat)
    requires 5 <= i < 8 && CanReserve(StaleAccount(account, 5), 5) && Unused(StaleAccount(account, 5).ledger, Launch(1))
    ensures After(StaleWorld(account, i), STALE[i]) == StaleWorld(account, i + 1) && Orderly(StaleWorld(account, i), STALE[i])
  {
  }

  lemma StaleEnds(account: Account, i: nat)
    requires 8 <= i < 10 && !IsHeld(StaleAccount(account, 9), Launch(0))
    ensures After(StaleWorld(account, i), STALE[i]) == StaleWorld(account, i + 1) && Orderly(StaleWorld(account, i), STALE[i])
  {
  }

  lemma StaleSums(account: Account)
    requires account.balance == 20 && account.reserved == 0
    requires Unused(account.ledger, Launch(0)) && Unused(account.ledger, Launch(1))
    ensures CanReserve(StaleAccount(account, 5), 5) && Unused(StaleAccount(account, 5).ledger, Launch(1))
    ensures var end := StaleAccount(account, 9);
            end.reserved == 5 && Outstanding(end.ledger, Launch(1)) == 5 && Outstanding(end.ledger, Launch(0)) == 0 && !IsHeld(end, Launch(0))
  {
    var rows := account.ledger;
    var a, b, c := Row(Operation.Reserve, -5, Some(Launch(0))), Row(Operation.Release, 5, Some(Launch(0))), Row(Operation.Reserve, -5, Some(Launch(1)));
    assert StaleAccount(account, 9).ledger == rows + [a] + [b] + [c];
    ThreeRows(rows, a, b, c, Launch(0));
    ThreeRows(rows, a, b, c, Launch(1));
  }

  lemma ThreeRows(rows: seq<Row>, a: Row, b: Row, c: Row, ref: Ref)
    requires Unused(rows, ref)
    ensures var end, one := rows + [a] + [b] + [c], Some(ref);
            && Outstanding(end, ref) == (if a.ref == one then HoldMove(a) else 0) + (if b.ref == one then HoldMove(b) else 0)
                                        + (if c.ref == one then HoldMove(c) else 0)
            && Reserves(end, ref) == (if a.ref == one && a.op.Reserve? then 1 else 0) + (if b.ref == one && b.op.Reserve? then 1 else 0)
                                     + (if c.ref == one && c.op.Reserve? then 1 else 0)
            && Finalizers(end, ref) == (if a.ref == one && !a.op.Reserve? then 1 else 0) + (if b.ref == one && !b.op.Reserve? then 1 else 0)
                                       + (if c.ref == one && !c.op.Reserve? then 1 else 0)
  {
    UnusedSums(rows, ref);
    AppendAt(rows, a, ref);
    AppendAt(rows + [a], b, ref);
    AppendAt(rows + [a] + [b], c, ref);
  }

  /** Such a run, in which launches do not even overlap: enqueueing of the first launch fails and its compensation gives its hold
      back; a cancel that was meant for it wins the tag of the second. Everybody is finished, and 5 credits stay reserved. */
  lemma StaleCancelHappens(account: Account)
    requires account.balance == 20 && account.reserved == 0
    requires Unused(account.ledger, Launch(0)) && Unused(account.ledger, Launch(1))
    ensures AllOrderly(Start(account, 0), STALE)
    ensures var end := Play(Start(account, 0), STALE);
            AllFinished(end) && end.account.reserved == 5 && Outstanding(end.account.ledger, Launch(1)) == 5
  {
    var worlds := seq(11, (i: nat) => StaleWorld(account, i));
    StaleSums(account);
    forall i: nat | i < 10 ensures LeadsOrderly(worlds, STALE, i) {
      if i < 3 {
        StaleFirst(account, i);
      } else if i < 5 {
        StaleFails(account, i);
      } else if i < 8 {
        StaleRelaunch(account, i);
      } else {
        StaleEnds(account, i);
      }
    }
    forall i: nat | i < 10 ensures Leads(worlds, STALE, i) {
      assert LeadsOrderly(worlds, STALE, i);
    }
    TraceIsRun(worlds, STALE, 10);
    TraceIsOrderly(worlds, STALE, 10);
    assert STALE[..10] == STALE;
  }
}
