/** The trial-lecture counter under the launch protocol, in every interleaving whatever. Only video launches take a slot; the
    analyze launch tags the row `trial` without one. */
module LaunchSlots {
  import opened Common
  import opened Ledger
  import opened Billing
  import opened LaunchProtocol

  /** `claim_billing` answers once per write of the row, whoever asks: in every run, overlapping launches included. */
  lemma {:induction false} OneClaimPerWrite(account: Account, others: nat, moves: seq<Move>)
    ensures var w := Play(Start(account, others), moves);
            w.claims + (if w.lesson.billedVia.Some? then 1 else 0) <= 1
  {
    if moves != [] {
      OneClaimPerWrite(account, others, moves[..|moves| - 1]);
      MoveKeepsOneClaim(Play(Start(account, others), moves[..|moves| - 1]), moves[|moves| - 1]);
    }
  }

  function Claimable(w: World): nat {
    w.claims + (if w.lesson.billedVia.Some? then 1 else 0)
  }

  /** A claim takes the tag away, only a write puts one there, and then the count starts again. */
  lemma MoveKeepsOneClaim(w: World, m: Move)
    ensures Claimable(After(w, m)) <= Max(1, Claimable(w))
  {
    if IsClaim(m) {
      ClaimsShape(w, m);
    } else if IsSettlement(m) {
      SettlesShape(w, m);
    } else if !m.WriteRow? {
      NoRowWritten(w, m);
    }
  }

  lemma NoRowWritten(w: World, m: Move)
    requires !IsClaim(m) && !IsSettlement(m) && !m.WriteRow?
    ensures After(w, m).lesson == w.lesson && After(w, m).claims == w.claims
  {
    ElsewhereShape(w, m);
  }

  // ----- whose slot is whose -----

  predicate TookSlot(proc: Process) {
    proc.Reserved? && proc.own.Trial? && proc.kind.Video?
  }

  /** Only launches hold slots, each its own; a tag is won at most once; a vision launch never holds one. */
  ghost predicate SlotInv(w: World) {
    && (forall i :: i in w.held ==> i < |w.procs|)
    && (forall i :: 0 <= i < |w.procs| && w.procs[i].Reserved? ==> (i in w.held <==> TookSlot(w.procs[i])))
    && AuthorSound(w)
    && (forall i :: i in w.tags ==> i < |w.procs| && TagSound(w, w.tags[i]))
    && (forall i, j :: i in w.tags && j in w.tags && i != j ==> w.tags[i].launch != w.tags[j].launch)
    && (forall i :: 0 <= i < |w.procs| && Claiming(w.procs[i]) ==> ClaimSound(w, i))
  }

  /** The tag of somebody's claim: its launch has written the row, and holds no slot if it was an analyze launch. */
  ghost predicate TagSound(w: World, tag: Author) {
    tag.launch < |w.procs| && !w.procs[tag.launch].Reserved? && (tag.kind.Vision? ==> tag.launch !in w.held)
  }

  /** The tag on the row is nobody's yet, and a trial tag of a video launch comes with its slot. */
  ghost predicate AuthorSound(w: World) {
    w.lesson.billedVia.Some? ==>
      && TagSound(w, w.author)
      && (forall i :: i in w.tags ==> w.tags[i].launch != w.author.launch)
      && (w.lesson.billedVia == Some(Trial) && w.author.kind.Video? ==> w.author.launch in w.held)
  }

  ghost predicate ClaimSound(w: World, i: nat)
    requires i < |w.procs| && Claiming(w.procs[i])
  {
    i in w.tags && (w.procs[i].claimed.Trial? && w.tags[i].kind.Video? ==> w.tags[i].launch in w.held)
  }

  /** One more process, which holds a slot if and only if it took one. */
  lemma SpawnKeepsSlots(w: World, v: World)
    requires SlotInv(w) && |v.procs| == |w.procs| + 1 && v.procs[..|w.procs|] == w.procs
    requires !Claiming(v.procs[|w.procs|]) && v.held == w.held + (if TookSlot(v.procs[|w.procs|]) then {|w.procs|} else {})
    requires v.tags == w.tags && v.author == w.author && v.lesson == w.lesson
    ensures SlotInv(v)
  {
    var n := |w.procs|;
    assert forall i :: 0 <= i < n ==> v.procs[i] == w.procs[i];
    forall tag: Author | TagSound(w, tag) ensures TagSound(v, tag) {
    }
    forall i | 0 <= i < |v.procs| && Claiming(v.procs[i]) ensures ClaimSound(v, i) {
      assert ClaimSound(w, i);
    }
  }

  lemma WriteKeepsSlots(w: World, p: nat)
    requires SlotInv(w)
    ensures SlotInv(RowWritten(w, p))
  {
    if At(w, p) && w.procs[p].Reserved? {
      var v := RowWritten(w, p);
      assert forall i :: 0 <= i < |w.procs| && i != p ==> v.procs[i] == w.procs[i];
      forall i | i in v.tags ensures TagSound(v, v.tags[i]) && v.tags[i].launch != p {
        assert TagSound(w, w.tags[i]);
      }
      forall i | 0 <= i < |v.procs| && Claiming(v.procs[i]) ensures ClaimSound(v, i) {
        assert ClaimSound(w, i);
      }
    }
  }

  /** A process that is not a fresh launch moves on without a claim. */
  lemma FinishKeepsSlots(w: World, p: nat)
    requires SlotInv(w) && At(w, p) && !w.procs[p].Reserved?
    ensures SlotInv(Put(w, p, Finished))
  {
    var v := Put(w, p, Finished);
    forall tag: Author | TagSound(w, tag) ensures TagSound(v, tag) {
    }
    forall i | 0 <= i < |v.procs| && Claiming(v.procs[i]) ensures ClaimSound(v, i) {
      assert ClaimSound(w, i);
    }
  }

  lemma WinKeepsSlots(w: World, p: nat, v: World)
    requires SlotInv(w) && At(w, p) && !w.procs[p].Reserved? && !Claiming(w.procs[p]) && w.lesson.billedVia.Some?
    requires |v.procs| == |w.procs| && v.procs == w.procs[p := v.procs[p]] && Claiming(v.procs[p])
    requires v.procs[p].claimed == w.lesson.billedVia.value && v.lesson.billedVia.None?
    requires v.tags == w.tags[p := w.author] && v.held == w.held && v.author == w.author
    ensures SlotInv(v)
  {
    forall tag: Author | TagSound(w, tag) ensures TagSound(v, tag) {
    }
    forall i | 0 <= i < |v.procs| && Claiming(v.procs[i]) ensures ClaimSound(v, i) {
      assert i != p ==> ClaimSound(w, i);
    }
  }

  /** Settling gives up at most the slot of the tag that was won. */
  lemma SettleKeepsSlots(w: World, p: nat, v: World)
    requires SlotInv(w) && At(w, p) && Claiming(w.procs[p])
    requires v.procs == w.procs[p := Finished] && v.lesson == w.lesson && v.tags == w.tags && v.author == w.author
    requires v.held == w.held || v.held == w.held - Owner(w, p)
    ensures SlotInv(v)
  {
    assert ClaimSound(w, p) && TagSound(w, w.tags[p]);
    forall tag: Author | TagSound(w, tag) ensures TagSound(v, tag) {
    }
    forall i | 0 <= i < |v.procs| && Claiming(v.procs[i]) ensures ClaimSound(v, i) {
      assert ClaimSound(w, i);
    }
  }

  lemma ClaimMoveKeepsSlots(w: World, m: Move)
    requires SlotInv(w) && IsClaim(m)
    ensures SlotInv(Claims(w, m))
  {
    if MayClaim(w, m) {
      if w.lesson.billedVia.None? {
        FinishKeepsSlots(w, m.p);
      } else {
        WinKeepsSlots(w, m.p, Claims(w, m));
      }
    }
  }

  lemma SettleMoveKeepsSlots(w: World, m: Move)
    requires SlotInv(w) && IsSettlement(m)
    ensures SlotInv(Settles(w, m))
  {
    if MaySettle(w, m) {
      SettlesShape(w, m);
      SettleKeepsSlots(w, m.p, Settles(w, m));
    }
  }

  lemma MoveKeepsSlotInv(w: World, m: Move)
    requires SlotInv(w)
    ensures SlotInv(After(w, m))
  {
    if IsClaim(m) {
      ClaimMoveKeepsSlots(w, m);
    } else if IsSettlement(m) {
      SettleMoveKeepsSlots(w, m);
    } else {
      OtherMoveKeepsSlots(w, m);
    }
  }

  lemma OtherMoveKeepsSlots(w: World, m: Move)
    requires SlotInv(w) && !IsClaim(m) && !IsSettlement(m)
    ensures SlotInv(After(w, m))
  {
    if m.LaunchOnCredits? {
      CreditsKeepSlots(w, m.kind, m.ref, m.estimate);
    } else if m.LaunchOnTrial? {
      TrialKeepsSlots(w, m.kind, m.ref, m.estimate);
    } else if m.WriteRow? {
      WriteKeepsSlots(w, m.p);
    } else if m.BrokerAccepts? {
      if At(w, m.p) && w.procs[m.p].Tagged? {
        FinishKeepsSlots(w, m.p);
      }
    } else if m.CancelBegins? {
      BeginKeepsSlots(w, CancelRead(m.kind, w.lesson.billingRef));
    } else if m.TaskBegins? {
      BeginKeepsSlots(w, TaskRead(m.kind, w.lesson.billingRef, w.lesson.estimate));
    } else {
      ElsewhereShape(w, m);
      SameKeepsSlots(w, ElsewhereMoves(w, m));
    }
  }

  lemma CreditsKeepSlots(w: World, kind: Kind, ref: Ref, estimate: nat)
    requires SlotInv(w)
    ensures SlotInv(LaunchedOnCredits(w, kind, ref, estimate))
  {
    if CanReserve(w.account, estimate) {
      SpawnKeepsSlots(w, LaunchedOnCredits(w, kind, ref, estimate));
    }
  }

  lemma TrialKeepsSlots(w: World, kind: Kind, ref: Ref, estimate: nat)
    requires SlotInv(w)
    ensures SlotInv(LaunchedOnTrial(w, kind, ref, estimate))
  {
    if w.used < TRIAL_LECTURES {
      SpawnKeepsSlots(w, LaunchedOnTrial(w, kind, ref, estimate));
    }
  }

  lemma BeginKeepsSlots(w: World, proc: Process)
    requires SlotInv(w) && (proc.CancelRead? || proc.TaskRead?)
    ensures SlotInv(Spawn(w, proc))
  {
    SpawnKeepsSlots(w, Spawn(w, proc));
  }

  lemma SameKeepsSlots(w: World, v: World)
    requires SlotInv(w) && v.procs == w.procs && v.held == w.held && v.tags == w.tags && v.author == w.author && v.lesson == w.lesson
    ensures SlotInv(v)
  {
    forall tag: Author | TagSound(w, tag) ensures TagSound(v, tag) {
    }
    forall i | 0 <= i < |v.procs| && Claiming(v.procs[i]) ensures ClaimSound(v, i) {
      assert ClaimSound(w, i);
    }
  }

  lemma {:induction false} SlotInvInEveryRun(account: Account, others: nat, moves: seq<Move>)
    ensures SlotInv(Play(Start(account, others), moves))
  {
    if moves != [] {
      SlotInvInEveryRun(account, others, moves[..|moves| - 1]);
      MoveKeepsSlotInv(Play(Start(account, others), moves[..|moves| - 1]), moves[|moves| - 1]);
    }
  }

  // ----- backed refunds -----

  /** Process `i` is about to call release_slot. */
  predicate Refunding(w: World, i: nat) {
    At(w, i) && ReturnsSlot(w.procs[i])
  }

  /** Every refund about to be made returns the slot of the launch whose tag was won, and no two the same one. */
  ghost predicate Backed(w: World) {
    && (forall i :: Refunding(w, i) ==> i in w.tags && w.tags[i].launch in w.held)
    && (forall i, j :: Refunding(w, i) && Refunding(w, j) && i != j ==> w.tags[i].launch != w.tags[j].launch)
  }

  /** A video cancel, compensation or failed worker wins a trial tag that an analyze launch wrote. */
  predicate Crosses(w: World, m: Move) {
    && IsClaim(m) && After(w, m) != w
    && w.lesson.billedVia == Some(Trial) && w.author.kind.Vision?
    && Refunding(After(w, m), m.p)
  }

  ghost predicate AlwaysBacked(w: World, moves: seq<Move>) {
    Backed(Play(w, moves)) && (moves == [] || AlwaysBacked(w, moves[..|moves| - 1]))
  }

  predicate NeverCrosses(w: World, moves: seq<Move>) {
    moves == [] || (NeverCrosses(w, moves[..|moves| - 1]) && !Crosses(Play(w, moves[..|moves| - 1]), moves[|moves| - 1]))
  }

  /** The refunds about to be made are for tags that video launches wrote. */
  ghost predicate OwnKind(w: World) {
    forall i :: Refunding(w, i) ==> i in w.tags && w.tags[i].kind.Video?
  }

  lemma BackedIffOwnKind(w: World)
    requires SlotInv(w)
    ensures Backed(w) <==> OwnKind(w)
  {
    forall i | Refunding(w, i) ensures i in w.tags && (w.tags[i].launch in w.held <==> w.tags[i].kind.Video?) {
      assert ClaimSound(w, i) && TagSound(w, w.tags[i]);
    }
  }

  /** A process about to refund was so before, unless it wins just now: then it wins a trial tag, the author's. */
  ghost predicate Inherits(w: World, v: World, i: nat, winner: Option<nat>) {
    && i in v.tags
    && if winner == Some(i) then w.lesson.billedVia == Some(Trial) && v.tags[i] == w.author
       else Refunding(w, i) && i in w.tags && v.tags[i] == w.tags[i]
  }

  lemma ClaimRefunders(w: World, m: Move, i: nat)
    requires SlotInv(w) && IsClaim(m) && Refunding(Claims(w, m), i)
    ensures Inherits(w, Claims(w, m), i, if Claims(w, m) != w then Some(m.p) else None)
  {
    ClaimsShape(w, m);
    if i == m.p && MayClaim(w, m) {
      assert !ReturnsSlot(w.procs[i]);
    } else {
      assert Refunding(w, i) && ClaimSound(w, i);
    }
  }

  lemma SettlementRefunders(w: World, m: Move, i: nat)
    requires SlotInv(w) && IsSettlement(m) && Refunding(Settles(w, m), i)
    ensures Inherits(w, Settles(w, m), i, None)
  {
    SettlesShape(w, m);
    assert ClaimSound(w, i);
  }

  lemma OtherRefunders(w: World, m: Move, i: nat)
    requires SlotInv(w) && !IsClaim(m) && !IsSettlement(m) && Refunding(After(w, m), i)
    ensures Inherits(w, After(w, m), i, None)
  {
    ElsewhereShape(w, m);
    assert Refunding(w, i);
    assert ClaimSound(w, i);
  }

  lemma UncrossedKeepsOwnKind(w: World, m: Move)
    requires SlotInv(w) && OwnKind(w)
    ensures OwnKind(After(w, m)) <==> !Crosses(w, m)
  {
    var v := After(w, m);
    if !Crosses(w, m) {
      forall i | Refunding(v, i) ensures i in v.tags && v.tags[i].kind.Video? {
        if IsClaim(m) {
          ClaimRefunders(w, m, i);
        } else if IsSettlement(m) {
          SettlementRefunders(w, m, i);
        } else {
          OtherRefunders(w, m, i);
        }
      }
    } else {
      assert Refunding(v, m.p);
      assert v.tags[m.p] == w.author;
    }
  }

  lemma {:induction false} OwnKindInUncrossedRuns(account: Account, others: nat, moves: seq<Move>)
    requires NeverCrosses(Start(account, others), moves)
    ensures OwnKind(Play(Start(account, others), moves))
  {
    if moves != [] {
      var w := Play(Start(account, others), moves[..|moves| - 1]);
      OwnKindInUncrossedRuns(account, others, moves[..|moves| - 1]);
      SlotInvInEveryRun(account, others, moves[..|moves| - 1]);
      UncrossedKeepsOwnKind(w, moves[|moves| - 1]);
    }
  }

  /** Over all runs, analyze launches on the trial and overlapping launches included: every refund that is ever about to be
      made is backed by a slot of this lesson, each by another one, if and only if no video cancel, compensation or failed
      worker ever wins a trial tag that an analyze launch wrote. The claimant could look: that launch has set the lesson's
      status in the commit that wrote the tag. */
  lemma {:induction false} BackedIffNeverCrossed(account: Account, others: nat, moves: seq<Move>)
    ensures AlwaysBacked(Start(account, others), moves) <==> NeverCrosses(Start(account, others), moves)
  {
    var w := Play(Start(account, others), moves);
    SlotInvInEveryRun(account, others, moves);
    BackedIffOwnKind(w);
    if moves == [] {
      assert forall i :: !Refunding(w, i);
    } else {
      var front := moves[..|moves| - 1];
      BackedIffNeverCrossed(account, others, front);
      if NeverCrosses(Start(account, others), front) {
        OwnKindInUncrossedRuns(account, others, front);
        SlotInvInEveryRun(account, others, front);
        UncrossedKeepsOwnKind(Play(Start(account, others), front), moves[|moves| - 1]);
      }
    }
  }

  // ----- the counter -----

  /** The counter is the slots taken elsewhere, kept by workers, and still held by launches of this lesson. */
  ghost predicate Accounted(w: World) {
    w.used == w.others + w.kept + |w.held|
  }

  lemma OneLess(held: set<nat>, launch: nat)
    ensures |held - {launch}| == |held| - (if launch in held then 1 else 0)
  {
    if launch !in held {
      assert held - {launch} == held;
    }
  }

  lemma SettledCount(w: World, p: nat, m: Move)
    requires At(w, p) && p in w.tags
    ensures var v, owner := Settled(w, p, m), w.tags[p].launch;
            && v.others == w.others
            && if ReturnsSlot(w.procs[p]) then
                 v.used == (if w.used > 0 then w.used - 1 else 0) && v.kept == w.kept && v.held == w.held - {owner}
               else if KeepsSlot(w.procs[p]) then
                 v.used == w.used && v.kept == (if owner in w.held then w.kept + 1 else w.kept) && v.held == w.held - {owner}
               else v.used == w.used && v.kept == w.kept && v.held == w.held
  {
  }

  lemma SettlementSettles(w: World, m: Move)
    requires IsSettlement(m) && After(w, m) != w
    ensures MaySettle(w, m) && Claiming(w.procs[m.p]) && After(w, m) == Settled(w, m.p, m)
  {
  }

  /** A refund keeps the counter right exactly when its tag came from a video launch, or there is nothing left to give. */
  lemma RefundKeepsCountIff(w: World, m: Move)
    requires SlotInv(w) && Accounted(w) && IsSettlement(m) && Refunding(w, m.p) && After(w, m) != w
    ensures m.p in w.tags
    ensures Accounted(After(w, m)) <==> w.tags[m.p].kind.Video? || w.used == 0
    ensures w.tags[m.p].kind.Video? ==> After(w, m).used == w.used - 1
  {
    assert ClaimSound(w, m.p) && TagSound(w, w.tags[m.p]);
    OneLess(w.held, w.tags[m.p].launch);
    SettlementSettles(w, m);
    SettledCount(w, m.p, m);
    CountAfterRefund(w, After(w, m), m.p);
  }

  lemma CountAfterRefund(w: World, v: World, p: nat)
    requires SlotInv(w) && Accounted(w) && Refunding(w, p) && p in w.tags && TagSound(w, w.tags[p]) && ClaimSound(w, p)
    requires v.others == w.others && v.kept == w.kept && v.held == w.held - {w.tags[p].launch}
    requires v.used == if w.used > 0 then w.used - 1 else 0
    ensures Accounted(v) <==> w.tags[p].kind.Video? || w.used == 0
    ensures w.tags[p].kind.Video? ==> v.used == w.used - 1
  {
    OneLess(w.held, w.tags[p].launch);
  }

  lemma SettleMoveKeepsCount(w: World, m: Move)
    requires SlotInv(w) && Accounted(w) && OwnKind(w) && IsSettlement(m)
    ensures Accounted(After(w, m)) && After(w, m).used <= w.used
  {
    if After(w, m) != w {
      SettlementSettles(w, m);
      assert ClaimSound(w, m.p) && TagSound(w, w.tags[m.p]);
      SettledCount(w, m.p, m);
      OneLess(w.held, w.tags[m.p].launch);
      if Refunding(w, m.p) {
        CountAfterRefund(w, After(w, m), m.p);
      }
    }
  }

  /** A video launch on the trial takes a slot of its own; nothing else but a settlement touches this lesson's. */
  lemma TrialKeepsCount(w: World, kind: Kind, ref: Ref, estimate: nat)
    requires SlotInv(w) && Accounted(w) && w.used <= TRIAL_LECTURES
    ensures var v := LaunchedOnTrial(w, kind, ref, estimate); Accounted(v) && v.used <= TRIAL_LECTURES
  {
    assert |w.procs| !in w.held;
    assert |w.held + {|w.procs|}| == |w.held| + 1;
  }

  lemma OtherMoveKeepsCount(w: World, m: Move)
    requires Accounted(w) && w.used <= TRIAL_LECTURES && !IsClaim(m) && !IsSettlement(m) && !m.LaunchOnTrial?
    ensures Accounted(After(w, m)) && After(w, m).used <= TRIAL_LECTURES
  {
  }

  lemma MoveKeepsCount(w: World, m: Move)
    requires SlotInv(w) && Accounted(w) && OwnKind(w) && w.used <= TRIAL_LECTURES
    ensures Accounted(After(w, m)) && After(w, m).used <= TRIAL_LECTURES
  {
    if IsClaim(m) {
      ClaimsShape(w, m);
    } else if IsSettlement(m) {
      SettleMoveKeepsCount(w, m);
    } else if m.LaunchOnTrial? {
      TrialKeepsCount(w, m.kind, m.ref, m.estimate);
    } else {
      OtherMoveKeepsCount(w, m);
    }
  }

  /** So in every run that never crosses, each slot taken is handed back or kept at most once, the counter stays within
      0..limit and counts exactly the slots taken elsewhere, kept, and still held, and no refund is lost to its guard or
      eats a slot taken by another lesson. */
  lemma {:induction false} TrialSlotsConserved(account: Account, others: nat, moves: seq<Move>)
    requires others <= TRIAL_LECTURES && NeverCrosses(Start(account, others), moves)
    ensures var w := Play(Start(account, others), moves);
            Accounted(w) && 0 <= w.others <= w.used <= TRIAL_LECTURES
  {
    if moves != [] {
      var w := Play(Start(account, others), moves[..|moves| - 1]);
      TrialSlotsConserved(account, others, moves[..|moves| - 1]);
      OwnKindInUncrossedRuns(account, others, moves[..|moves| - 1]);
      SlotInvInEveryRun(account, others, moves[..|moves| - 1]);
      MoveKeepsCount(w, moves[|moves| - 1]);
    }
  }

  // ----- a run that crosses -----

  const LATECANCEL: seq<Move> :=
    [LaunchOnTrial(Video, Launch(0), 5), WriteRow(0), BrokerAccepts(0), CancelBegins(Video), TaskBegins(Video),
     TaskClaims(2, 0, false), TaskSettles(2), LaunchOnTrial(Vision, Launch(1), 5), WriteRow(3), CancelClaims(1), CancelSettles(1)]

  function LateCancelProcs(i: nat): seq<Process> {
    var cancel, analyze := CancelRead(Video, None), Tagged(Vision, Trial, Launch(1), 5);
    if i == 0 then []
    else if i == 1 then [Reserved(Video, Trial, Launch(0), 5)]
    else if i == 2 then [Tagged(Video, Trial, Launch(0), 5)]
    else if i == 3 then [Finished]
    else if i == 4 then [Finished, cancel]
    else if i == 5 then [Finished, cancel, TaskRead(Video, None, 0)]
    else if i == 6 then [Finished, cancel, TaskClaimed(Video, Trial, None, 0, 0, false)]
    else if i == 7 then [Finished, cancel, Finished]
    else if i == 8 then [Finished, cancel, Finished, Reserved(Vision, Trial, Launch(1), 5)]
    else if i == 9 then [Finished, cancel, Finished, analyze]
    else if i == 10 then [Finished, CancelClaimed(Video, Trial, None), Finished, analyze]
    else [Finished, Finished, Finished, analyze]
  }

  function LateCancelWorld(account: Account, i: nat): World {
    World(account, if i == 0 then 1 else if i < 7 then 2 else if i < 11 then 1 else 0,
          LessonRow(if 2 <= i < 6 || i == 9 then Some(Trial) else None, None, 0), LateCancelProcs(i),
          if i == 0 then map[] else if i < 8 then map[Launch(0) := 0] else map[Launch(0) := 0, Launch(1) := 0],
          if i < 9 then Author(0, Video) else Author(3, Vision),
          if i < 6 then map[] else if i < 10 then map[2 := Author(0, Video)] else map[2 := Author(0, Video), 1 := Author(3, Vision)],
          if 1 <= i < 7 then {0} else {}, 0, 1, if 6 <= i < 9 || 10 <= i then 1 else 0)
  }

  lemma LateCancelFirst(account: Account, i: nat)
    requires i < 6 && Unused(account.ledger, Launch(0))
    ensures After(LateCancelWorld(account, i), LATECANCEL[i]) == LateCancelWorld(account, i + 1)
    ensures Orderly(LateCancelWorld(account, i), LATECANCEL[i])
  {
    if i < 3 {
      LateCancelLaunch(account, i);
    } else {
      LateCancelReads(account, i);
    }
  }

  lemma LateCancelLaunch(account: Account, i: nat)
    requires i < 3 && Unused(account.ledger, Launch(0))
    ensures After(LateCancelWorld(account, i), LATECANCEL[i]) == LateCancelWorld(account, i + 1)
    ensures Orderly(LateCancelWorld(account, i), LATECANCEL[i])
  {
  }

  lemma LateCancelReads(account: Account, i: nat)
    requires 3 <= i < 6
    ensures After(LateCancelWorld(account, i), LATECANCEL[i]) == LateCancelWorld(account, i + 1)
    ensures Orderly(LateCancelWorld(account, i), LATECANCEL[i])
  {
  }

  lemma LateCancelSecond(account: Account, i: nat)
    requires 6 <= i < 11 && Unused(account.ledger, Launch(1))
    ensures After(LateCancelWorld(account, i), LATECANCEL[i]) == LateCancelWorld(account, i + 1)
    ensures Orderly(LateCancelWorld(account, i), LATECANCEL[i])
  {
    if i < 9 {
      LateCancelAnalyze(account, i);
    } else {
      LateCancelWins(account, i);
    }
  }

  lemma LateCancelAnalyze(account: Account, i: nat)
    requires 6 <= i < 9 && Unused(account.ledger, Launch(1))
    ensures After(LateCancelWorld(account, i), LATECANCEL[i]) == LateCancelWorld(account, i + 1)
    ensures Orderly(LateCancelWorld(account, i), LATECANCEL[i])
  {
  }

  lemma LateCancelWins(account: Account, i: nat)
    requires 9 <= i < 11
    ensures After(LateCancelWorld(account, i), LATECANCEL[i]) == LateCancelWorld(account, i + 1)
    ensures Orderly(LateCancelWorld(account, i), LATECANCEL[i])
  {
  }

  /** A cancel request reads the lesson while its video is being made. The worker gives up and returns the slot; an analysis is
      launched, which tags the row `trial` without a slot; the cancel wins that tag and returns a slot of another lesson. No
      two launches overlap. */
  lemma AnalyzeTagIsUnbacked(account: Account)
    requires Unused(account.ledger, Launch(0)) && Unused(account.ledger, Launch(1))
    ensures var w := Play(Start(account, 1), LATECANCEL);
            AllOrderly(Start(account, 1), LATECANCEL) && w.others == 1 && w.used == 0
  {
    var worlds := seq(12, (i: nat) => LateCancelWorld(account, i));
    forall i: nat | i < 11 ensures LeadsOrderly(worlds, LATECANCEL, i) && Leads(worlds, LATECANCEL, i) {
      if i < 6 {
        LateCancelFirst(account, i);
      } else {
        LateCancelSecond(account, i);
      }
    }
    TraceIsRun(worlds, LATECANCEL, 11);
    TraceIsOrderly(worlds, LATECANCEL, 11);
    assert LATECANCEL[..11] == LATECANCEL;
  }
}
