/** The billing protocol of one lesson: launches, cancel requests and (possibly redelivered) worker tasks interleave one
    committed transaction at a time, against one credit account, the owner's trial-lecture counter and the lesson row.
    Everything else the owner does appears as environment moves. */
module LaunchProtocol {
  import opened Common
  import opened Ledger
  import opened Billing

  const TRIAL_LECTURES := 2

  datatype Via = Credits | Trial

  datatype Kind = Video | Vision

  /** The billing columns of the lesson row. */
  datatype LessonRow = LessonRow(billedVia: Option<Via>, billingRef: Option<Ref>, estimate: nat)

  datatype Process =
    | Reserved(kind: Kind, own: Via, ref: Ref, estimate: nat)      // launch: paid for, lesson row not written yet
    | Tagged(kind: Kind, own: Via, ref: Ref, estimate: nat)        // launch: row written, enqueueing
    | LaunchClaimed(kind: Kind, own: Via, claimed: Via, ref: Ref, estimate: nat) // launch: broker down, claim won
    | CancelRead(kind: Kind, known: Option<Ref>)
    | CancelClaimed(kind: Kind, claimed: Via, known: Option<Ref>)
    | TaskRead(kind: Kind, known: Option<Ref>, estimate: nat)
    | TaskClaimed(kind: Kind, claimed: Via, known: Option<Ref>, estimate: nat, spent: int, keepSlot: bool)
    | Finished

  /** The launch that wrote the lesson row, by its place among the processes. The analyze launch sets the lesson's status in
      the same commit, so the row tells the kind. */
  datatype Author = Author(launch: nat, kind: Kind)

  /** Everything after `procs` is history: the refs this lesson minted with what they reserved; who wrote the row last, and
      whose tag each claimant won; the launches whose trial slot is neither returned nor kept, how many slots workers kept,
      and the slots taken elsewhere; and the claims won since the last write of the row. */
  datatype World = World(account: Account, used: nat, lesson: LessonRow, procs: seq<Process>, minted: map<Ref, nat>,
                         author: Author, tags: map<nat, Author>, held: set<nat>, kept: nat, others: nat, claims: nat)

  datatype Move =
    | LaunchOnCredits(kind: Kind, ref: Ref, estimate: nat)
    | LaunchOnTrial(kind: Kind, ref: Ref, estimate: nat)
    | WriteRow(p: nat)
    | BrokerAccepts(p: nat)
    | BrokerFails(p: nat)
    | Compensate(p: nat)
    | CancelBegins(kind: Kind)
    | CancelClaims(p: nat)
    | CancelSettles(p: nat)
    | TaskBegins(kind: Kind)
    | TaskClaims(p: nat, spent: int, keepSlot: bool)
    | TaskSettles(p: nat)
    | ElsewhereOnAccount(step: Step)
    | ElsewhereTakesSlot
    | ElsewhereReturnsSlot

  // ----- transactions -----

  function Spawn(w: World, proc: Process): World {
    w.(procs := w.procs + [proc])
  }

  function Put(w: World, p: nat, proc: Process): World
    requires p < |w.procs|
  {
    w.(procs := w.procs[p := proc])
  }

  /** claim_billing and sync_claim_billing: null the column under the row lock. */
  function ClaimRow(w: World): World {
    if w.lesson.billedVia.None? then w else w.(lesson := w.lesson.(billedVia := None), claims := w.claims + 1)
  }

  /** The launch whose tag process `p` won. */
  function Owner(w: World, p: nat): set<nat> {
    if p in w.tags then {w.tags[p].launch} else {}
  }

  /** release_slot: the guarded decrement. */
  function ReturnSlot(w: World, p: nat): World {
    w.(used := if w.used > 0 then w.used - 1 else w.used, held := w.held - Owner(w, p))
  }

  function KeepSlot(w: World, p: nat): World {
    w.(held := w.held - Owner(w, p), kept := if p in w.tags && w.tags[p].launch in w.held then w.kept + 1 else w.kept)
  }

  function StepAccount(w: World, step: Step): World {
    w.(account := Next(w.account, step))
  }

  predicate At(w: World, p: nat) {
    p < |w.procs|
  }

  function Rewritten(proc: Process): LessonRow
    requires proc.Reserved?
  {
    if proc.own.Credits? then LessonRow(Some(Credits), Some(proc.ref), proc.estimate) else LessonRow(Some(Trial), None, 0)
  }

  /** The account step a move performs, if any. */
  function Induced(w: World, m: Move): Option<Step> {
    match m
    case LaunchOnCredits(_, ref, estimate) => Some(Reserving(estimate, ref))
    case Compensate(p) =>
      if At(w, p) && w.procs[p].LaunchClaimed? && w.procs[p].claimed.Credits?
      then Some(Releasing(w.procs[p].estimate, w.procs[p].ref)) else None
    case CancelSettles(p) =>
      if At(w, p) && w.procs[p].CancelClaimed? && w.procs[p].claimed.Credits? && w.procs[p].known.Some?
      then Some(ReleasingIfHeld(w.procs[p].known.value)) else None
    case TaskSettles(p) =>
      if At(w, p) && w.procs[p].TaskClaimed? && w.procs[p].claimed.Credits? && w.procs[p].known.Some?
      then Some(Finalizing(w.procs[p].known.value, w.procs[p].estimate, w.procs[p].spent,
                           if w.procs[p].kind.Video? then LessonGenerate else VisionAnalyze)) else None
    case ElsewhereOnAccount(step) => Some(step)
    case _ => None
  }

  /** Whether a settling process hands a trial-lecture slot back: only on the video side, and not a kept slot. */
  predicate ReturnsSlot(proc: Process) {
    match proc
    case LaunchClaimed(kind, _, claimed, _, _) => claimed.Trial? && kind.Video?
    case CancelClaimed(kind, claimed, _) => claimed.Trial? && kind.Video?
    case TaskClaimed(kind, claimed, _, _, _, keepSlot) => claimed.Trial? && kind.Video? && !keepSlot
    case _ => false
  }

  predicate KeepsSlot(proc: Process) {
    proc.TaskClaimed? && proc.claimed.Trial? && proc.kind.Video? && proc.keepSlot
  }

  predicate Claiming(proc: Process) {
    proc.LaunchClaimed? || proc.CancelClaimed? || proc.TaskClaimed?
  }

  function Settled(w: World, p: nat, m: Move): World
    requires At(w, p)
  {
    Put(SlotSettled(Paid(w, m), p, w.procs[p]), p, Finished)
  }

  function Paid(w: World, m: Move): World {
    if Induced(w, m).Some? then StepAccount(w, Induced(w, m).value) else w
  }

  function SlotSettled(w: World, p: nat, proc: Process): World {
    if ReturnsSlot(proc) then ReturnSlot(w, p) else if KeepsSlot(proc) then KeepSlot(w, p) else w
  }

  lemma SlotShape(w: World, p: nat, proc: Process)
    ensures var v := SlotSettled(w, p, proc);
            && v.procs == w.procs && v.lesson == w.lesson && v.minted == w.minted && v.claims == w.claims
            && v.author == w.author && v.tags == w.tags && v.others == w.others && v.account == w.account
  {
  }

  function LaunchedOnCredits(w: World, kind: Kind, ref: Ref, estimate: nat): World {
    if CanReserve(w.account, estimate)
    then Spawn(StepAccount(w, Reserving(estimate, ref)), Reserved(kind, Credits, ref, estimate)).(minted := w.minted[ref := estimate])
    else w
  }

  function LaunchedOnTrial(w: World, kind: Kind, ref: Ref, estimate: nat): World {
    if w.used >= TRIAL_LECTURES then w
    else
      var taken := if kind.Video? then w.(used := w.used + 1, held := w.held + {|w.procs|}) else w;
      Spawn(taken, Reserved(kind, Trial, ref, estimate)).(minted := w.minted[ref := 0])
  }

  function RowWritten(w: World, p: nat): World {
    if !At(w, p) || !w.procs[p].Reserved? then w
    else
      var proc := w.procs[p];
      Put(w.(lesson := Rewritten(proc), author := Author(p, proc.kind), claims := 0), p, Tagged(proc.kind, proc.own, proc.ref, proc.estimate))
  }

  /** The claimant `m` makes of a process when its claim is won. */
  function Winner(proc: Process, m: Move, via: Via): Process {
    if m.BrokerFails? && proc.Tagged? then LaunchClaimed(proc.kind, proc.own, via, proc.ref, proc.estimate)
    else if m.CancelClaims? && proc.CancelRead? then CancelClaimed(proc.kind, via, proc.known)
    else if m.TaskClaims? && proc.TaskRead? then TaskClaimed(proc.kind, via, proc.known, proc.estimate, m.spent, m.keepSlot)
    else proc
  }

  predicate IsClaim(m: Move) {
    m.BrokerFails? || m.CancelClaims? || m.TaskClaims?
  }

  predicate IsSettlement(m: Move) {
    m.Compensate? || m.CancelSettles? || m.TaskSettles?
  }

  /** Is process `p` where the claim starts from? */
  predicate MayClaim(w: World, m: Move)
    requires IsClaim(m)
  {
    At(w, m.p) && (if m.BrokerFails? then w.procs[m.p].Tagged? else if m.CancelClaims? then w.procs[m.p].CancelRead? else w.procs[m.p].TaskRead?)
  }

  predicate MaySettle(w: World, m: Move)
    requires IsSettlement(m)
  {
    && At(w, m.p)
    && if m.Compensate? then w.procs[m.p].LaunchClaimed? else if m.CancelSettles? then w.procs[m.p].CancelClaimed? else w.procs[m.p].TaskClaimed?
  }

  function Claims(w: World, m: Move): World
    requires IsClaim(m)
  {
    if !MayClaim(w, m) then w
    else if w.lesson.billedVia.None? then Put(w, m.p, Finished)
    else Put(ClaimRow(w).(tags := w.tags[m.p := w.author]), m.p, Winner(w.procs[m.p], m, w.lesson.billedVia.value))
  }

  function Settles(w: World, m: Move): World
    requires IsSettlement(m)
  {
    if MaySettle(w, m) then Settled(w, m.p, m) else w
  }

  function ElsewhereMoves(w: World, m: Move): World {
    match m
    case ElsewhereOnAccount(step) => StepAccount(w, step)
    case ElsewhereTakesSlot => if w.used < TRIAL_LECTURES then w.(used := w.used + 1, others := w.others + 1) else w
    case ElsewhereReturnsSlot => if w.others > 0 && w.used > 0 then w.(used := w.used - 1, others := w.others - 1) else w
    case _ => w
  }

  function After(w: World, m: Move): World {
    match m
    case LaunchOnCredits(kind, ref, estimate) => LaunchedOnCredits(w, kind, ref, estimate)
    case LaunchOnTrial(kind, ref, estimate) => LaunchedOnTrial(w, kind, ref, estimate)
    case WriteRow(p) => RowWritten(w, p)
    case BrokerAccepts(p) => if !At(w, p) || !w.procs[p].Tagged? then w else Put(w, p, Finished)
    case CancelBegins(kind) => Spawn(w, CancelRead(kind, w.lesson.billingRef))
    case TaskBegins(kind) =>
      if w.lesson.billedVia.None? then w else Spawn(w, TaskRead(kind, w.lesson.billingRef, w.lesson.estimate))
    case BrokerFails(_) => Claims(w, m)
    case CancelClaims(_) => Claims(w, m)
    case TaskClaims(_, _, _) => Claims(w, m)
    case Compensate(_) => Settles(w, m)
    case CancelSettles(_) => Settles(w, m)
    case TaskSettles(_) => Settles(w, m)
    case _ => ElsewhereMoves(w, m)
  }

  /** A claim changes the claimant, the tag and the history of claims; a settlement the account, the slots and the settler. */
  lemma ClaimsShape(w: World, m: Move)
    requires IsClaim(m)
    ensures var v := Claims(w, m);
            && |v.procs| == |w.procs| && v.minted == w.minted && v.account == w.account && v.author == w.author
            && v.used == w.used && v.held == w.held && v.kept == w.kept && v.others == w.others
            && v.lesson == w.lesson.(billedVia := v.lesson.billedVia)
            && (forall i :: 0 <= i < |w.procs| && i != m.p ==> v.procs[i] == w.procs[i])
    ensures var v := Claims(w, m);
            if MayClaim(w, m) && w.lesson.billedVia.Some? then
              && v.procs[m.p] == Winner(w.procs[m.p], m, w.lesson.billedVia.value) && v.tags == w.tags[m.p := w.author]
              && v.lesson.billedVia.None? && v.claims == w.claims + 1
            else
              && v.tags == w.tags && v.lesson == w.lesson && v.claims == w.claims
              && (MayClaim(w, m) ==> v.procs[m.p] == Finished) && (!MayClaim(w, m) ==> v == w)
  {
  }

  lemma SettlesShape(w: World, m: Move)
    requires IsSettlement(m)
    ensures var v := Settles(w, m);
            && v.lesson == w.lesson && v.minted == w.minted && v.claims == w.claims
            && v.author == w.author && v.tags == w.tags && v.others == w.others
            && v.procs == (if MaySettle(w, m) then w.procs[m.p := Finished] else w.procs)
  {
    if MaySettle(w, m) {
      SettledShape(w, m.p, m);
    }
  }

  /** What the remaining moves leave alone. */
  lemma ElsewhereShape(w: World, m: Move)
    ensures var v := ElsewhereMoves(w, m);
            && v.procs == w.procs && v.lesson == w.lesson && v.minted == w.minted && v.claims == w.claims
            && v.author == w.author && v.tags == w.tags && v.held == w.held && v.kept == w.kept
  {
  }

  // ----- discipline -----

  predicate InWindow(proc: Process) {
    proc.Tagged? || proc.LaunchClaimed?
  }

  /** No launch of this lesson is between writing the row and finishing its request. */
  predicate WindowClosed(w: World) {
    forall i :: 0 <= i < |w.procs| ==> !InWindow(w.procs[i])
  }

  /** Refs are minted fresh, and the environment keeps to its own refs and to the account discipline. */
  predicate Polite(w: World, m: Move) {
    match m
    case LaunchOnCredits(_, ref, _) => ref.Launch? && ref !in w.minted && Unused(w.account.ledger, ref)
    case LaunchOnTrial(_, ref, _) => ref.Launch? && ref !in w.minted && Unused(w.account.ledger, ref)
    case ElsewhereOnAccount(step) =>
      Allowed(w.account, step) && (step.Granting? || step.Purchasing? || step.Renewing? || step.ref !in w.minted)
    case _ => true
  }

  /** And a launch writes the row only when no other launch of the lesson is still enqueueing or compensating. */
  predicate Orderly(w: World, m: Move) {
    Polite(w, m) && (m.WriteRow? ==> WindowClosed(w))
  }

  function Play(w: World, moves: seq<Move>): World {
    if moves == [] then w else After(Play(w, moves[..|moves| - 1]), moves[|moves| - 1])
  }

  predicate AllOrderly(w: World, moves: seq<Move>) {
    moves == [] || (AllOrderly(w, moves[..|moves| - 1]) && Orderly(Play(w, moves[..|moves| - 1]), moves[|moves| - 1]))
  }

  // ----- invariant -----

  function KnownRef(proc: Process): Option<Ref> {
    match proc
    case Finished => None
    case CancelRead(_, known) => known
    case CancelClaimed(_, _, known) => known
    case TaskRead(_, known, _) => known
    case TaskClaimed(_, _, known, _, _, _) => known
    case _ => Some(proc.ref)
  }

  /** A process that carries an amount carries what its ref reserved. */
  ghost predicate Priced(w: World, proc: Process) {
    && (KnownRef(proc).Some? ==> KnownRef(proc).value in w.minted)
    && (proc.Reserved? || proc.Tagged? || proc.LaunchClaimed? ==> proc.own.Credits? ==> proc.estimate == w.minted[proc.ref])
    && (proc.TaskRead? || proc.TaskClaimed? ==> proc.known.Some? ==> proc.estimate == w.minted[proc.known.value])
  }

  ghost predicate RowSound(w: World) {
    && (w.lesson.billingRef.Some? ==> w.lesson.billingRef.value in w.minted && w.lesson.estimate == w.minted[w.lesson.billingRef.value])
    && (w.lesson.billedVia == Some(Credits) ==>
          && w.lesson.billingRef.Some? && !IsFinalized(w.account, w.lesson.billingRef.value)
          && forall i :: 0 <= i < |w.procs| && Claiming(w.procs[i]) ==> KnownRef(w.procs[i]) != w.lesson.billingRef)
    && w.claims <= 1
    && (w.lesson.billedVia.Some? ==> w.claims == 0)
  }

  /** A ref still private to the launch that reserved it. */
  ghost predicate PrivateRef(w: World, i: nat)
    requires i < |w.procs| && w.procs[i].Reserved?
  {
    && !IsFinalized(w.account, w.procs[i].ref)
    && w.lesson.billingRef != Some(w.procs[i].ref)
    && forall j :: 0 <= j < |w.procs| && j != i ==> KnownRef(w.procs[j]) != Some(w.procs[i].ref)
  }

  /** The one launch inside its window still owns the tag, or has claimed it and is the only one about to settle its ref. */
  ghost predicate WindowSound(w: World, i: nat)
    requires i < |w.procs| && InWindow(w.procs[i])
  {
    var proc := w.procs[i];
    && (forall j :: 0 <= j < |w.procs| && j != i ==> !InWindow(w.procs[j]))
    && (proc.Tagged? && w.lesson.billedVia.Some? ==>
          w.lesson.billedVia == Some(proc.own) && (proc.own.Credits? ==> w.lesson.billingRef == Some(proc.ref)))
    && (proc.LaunchClaimed? ==>
          && proc.claimed == proc.own && w.lesson.billedVia.None?
          && (proc.own.Credits? ==>
                && !IsFinalized(w.account, proc.ref)
                && forall j :: 0 <= j < |w.procs| && j != i && Claiming(w.procs[j]) ==> KnownRef(w.procs[j]) != Some(proc.ref)))
  }

  ghost predicate Inv(w: World) {
    && (forall ref :: ref in w.minted ==>
          ref.Launch? && (!IsFinalized(w.account, ref) ==> Outstanding(w.account.ledger, ref) == w.minted[ref]))
    && RowSound(w)
    && (forall i :: 0 <= i < |w.procs| ==> Priced(w, w.procs[i]))
    && (forall i :: 0 <= i < |w.procs| && w.procs[i].Reserved? ==> PrivateRef(w, i))
    && (forall i :: 0 <= i < |w.procs| && InWindow(w.procs[i]) ==> WindowSound(w, i))
  }

  /** A step that does not name `ref` leaves its ledger facts alone. */
  lemma FrameRef(a: Account, step: Step, ref: Ref)
    requires ref.Launch?
    requires step.Granting? || step.Purchasing? || step.Renewing? || step.ref != ref
    ensures Outstanding(Next(a, step).ledger, ref) == Outstanding(a.ledger, ref)
    ensures IsFinalized(Next(a, step), ref) == IsFinalized(a, ref)
  {
    OtherRows(a, step, ref);
    GrownElsewhere(a.ledger, Next(a, step).ledger, ref);
  }

  /** Every account step the protocol performs meets the account discipline. */
  lemma InducedIsAllowed(w: World, m: Move)
    requires Inv(w) && Orderly(w, m) && Induced(w, m).Some?
    ensures Allowed(w.account, Induced(w, m).value)
  {
    match m
    case Compensate(p) =>
      assert WindowSound(w, p) && Priced(w, w.procs[p]);
    case CancelSettles(p) =>
      assert Priced(w, w.procs[p]);
    case TaskSettles(p) =>
      assert Priced(w, w.procs[p]);
    case _ =>
  }

  // ----- one move keeps the invariant -----

  /** A settling step leaves its ref finalized, or changes nothing. */
  lemma SettlingFinalizes(a: Account, step: Step)
    requires step.Releasing? || step.ReleasingIfHeld? || step.Finalizing?
    ensures Next(a, step) == a || IsFinalized(Next(a, step), step.ref)
  {
    var b := Next(a, step);
    var n := |a.ledger|;
    CountsNonNegative(a.ledger, step.ref);
    if |b.ledger| == n + 1 {
      assert b.ledger == a.ledger + [b.ledger[n]];
      AppendAt(a.ledger, b.ledger[n], step.ref);
    } else if |b.ledger| == n + 2 {
      assert b.ledger == a.ledger + [b.ledger[n]] + [b.ledger[n + 1]];
      AppendAt(a.ledger, b.ledger[n], step.ref);
      AppendAt(a.ledger + [b.ledger[n]], b.ledger[n + 1], step.ref);
    }
  }

  lemma ReservedFacts(a: Account, ref: Ref, estimate: nat)
    requires Unused(a.ledger, ref) && CanReserve(a, estimate)
    ensures var b := ReserveHold(a, estimate, ref);
            && Outstanding(b.ledger, ref) == estimate && !IsFinalized(b, ref)
            && forall r: Ref :: r != ref ==> SameFacts(a, b, r)
  {
    UnusedSums(a.ledger, ref);
    forall r: Ref ensures Outstanding(ReserveHold(a, estimate, ref).ledger, r) == Outstanding(a.ledger, r) + (if r == ref then estimate else 0)
                       && IsFinalized(ReserveHold(a, estimate, ref), r) == IsFinalized(a, r) {
      AppendAt(a.ledger, Row(Operation.Reserve, -(estimate as int), Some(ref)), r);
    }
  }

  lemma LaunchOnCreditsKeeps(w: World, kind: Kind, ref: Ref, estimate: nat)
    requires Inv(w) && Orderly(w, LaunchOnCredits(kind, ref, estimate))
    ensures Inv(After(w, LaunchOnCredits(kind, ref, estimate)))
  {
    if CanReserve(w.account, estimate) {
      ReservedFacts(w.account, ref, estimate);
      SpawnedKeeps(w, After(w, LaunchOnCredits(kind, ref, estimate)));
    }
  }

  lemma LaunchOnTrialKeeps(w: World, kind: Kind, ref: Ref, estimate: nat)
    requires Inv(w) && Orderly(w, LaunchOnTrial(kind, ref, estimate))
    ensures Inv(After(w, LaunchOnTrial(kind, ref, estimate)))
  {
    if w.used < TRIAL_LECTURES {
      UnusedSums(w.account.ledger, ref);
      SpawnedKeeps(w, LaunchedOnTrial(w, kind, ref, estimate));
    }
  }

  /** One more process, whose ref is new or copied from the row; old refs keep their ledger facts. */
  ghost predicate Grows(w: World, v: World) {
    && |v.procs| == |w.procs| + 1 && v.procs[..|w.procs|] == w.procs && v.lesson == w.lesson && v.claims == w.claims
    && (forall ref :: ref in w.minted ==> ref in v.minted && v.minted[ref] == w.minted[ref] && SameFacts(w.account, v.account, ref))
    && (forall ref :: ref in v.minted && ref !in w.minted ==>
          ref.Launch? && !IsFinalized(v.account, ref) && Outstanding(v.account.ledger, ref) == v.minted[ref])
    && Newcomer(w, v, v.procs[|w.procs|])
  }

  ghost predicate Newcomer(w: World, v: World, proc: Process) {
    && Priced(v, proc) && (proc.CancelRead? || proc.TaskRead? || proc.Reserved?)
    && (if proc.Reserved? then proc.ref !in w.minted && proc.ref in v.minted else KnownRef(proc) == w.lesson.billingRef)
  }

  lemma SpawnedKeeps(w: World, v: World)
    requires Inv(w) && Grows(w, v)
    ensures Inv(v)
  {
    forall i | 0 <= i < |v.procs| ensures Priced(v, v.procs[i]) {
      if i < |w.procs| {
        assert v.procs[i] == v.procs[..|w.procs|][i] && Priced(w, w.procs[i]);
      }
    }
    SpawnedRow(w, v);
    forall i | 0 <= i < |v.procs| && v.procs[i].Reserved? ensures PrivateRef(v, i) {
      SpawnedPrivate(w, v, i);
    }
    forall i | 0 <= i < |v.procs| && InWindow(v.procs[i]) ensures WindowSound(v, i) {
      SpawnedWindow(w, v, i);
    }
  }

  lemma SpawnedRow(w: World, v: World)
    requires Inv(w) && Grows(w, v)
    ensures RowSound(v)
  {
    assert forall j :: 0 <= j < |w.procs| ==> v.procs[j] == v.procs[..|w.procs|][j];
  }

  lemma SpawnedWindow(w: World, v: World, i: nat)
    requires Inv(w) && Grows(w, v) && i < |v.procs| && InWindow(v.procs[i])
    ensures WindowSound(v, i)
  {
    assert forall j :: 0 <= j < |w.procs| ==> v.procs[j] == v.procs[..|w.procs|][j];
    assert Priced(w, w.procs[i]) && WindowSound(w, i);
  }

  lemma SpawnedPrivate(w: World, v: World, i: nat)
    requires Inv(w) && Grows(w, v) && i < |v.procs| && v.procs[i].Reserved?
    ensures PrivateRef(v, i)
  {
    assert forall j :: 0 <= j < |w.procs| ==> v.procs[j] == v.procs[..|w.procs|][j] && Priced(w, w.procs[j]);
    if i < |w.procs| {
      assert PrivateRef(w, i);
    }
  }

  lemma BeginKeeps(w: World, proc: Process)
    requires Inv(w) && (proc.CancelRead? || proc.TaskRead?) && proc.known == w.lesson.billingRef
    requires proc.TaskRead? ==> proc.estimate == w.lesson.estimate
    ensures Inv(Spawn(w, proc))
  {
    SpawnedKeeps(w, Spawn(w, proc));
  }

  lemma WriteRowKeeps(w: World, p: nat)
    requires Inv(w) && Orderly(w, WriteRow(p))
    ensures Inv(RowWritten(w, p))
  {
    if At(w, p) && w.procs[p].Reserved? {
      var v := RowWritten(w, p);
      assert PrivateRef(w, p) && Priced(w, w.procs[p]);
      forall i | 0 <= i < |v.procs| ensures Priced(v, v.procs[i]) {
        assert Priced(w, w.procs[i]);
      }
      forall i | 0 <= i < |v.procs| && v.procs[i].Reserved? ensures PrivateRef(v, i) {
        WrittenPrivate(w, p, i);
      }
    }
  }

  lemma WrittenPrivate(w: World, p: nat, i: nat)
    requires Inv(w) && At(w, p) && w.procs[p].Reserved? && At(w, i) && i != p && w.procs[i].Reserved?
    ensures PrivateRef(RowWritten(w, p), i)
  {
    assert PrivateRef(w, i);
    assert KnownRef(w.procs[p]) != Some(w.procs[i].ref);
  }

  /** What a claim, won or lost, by any of the three claimants, leaves behind. */
  ghost predicate ClaimMade(w: World, p: nat, proc: Process, v: World)
    requires At(w, p)
  {
    && (w.procs[p].Tagged? || w.procs[p].CancelRead? || w.procs[p].TaskRead?)
    && v.procs == w.procs[p := proc] && v.minted == w.minted && v.account == w.account
    && (if w.lesson.billedVia.None? then proc.Finished? && v.lesson == w.lesson && v.claims == w.claims
        else
          && v.lesson == w.lesson.(billedVia := None) && v.claims == w.claims + 1
          && Claiming(proc) && KnownRef(proc) == KnownRef(w.procs[p]) && Priced(w, proc)
          && (proc.LaunchClaimed? <==> w.procs[p].Tagged?)
          && (proc.LaunchClaimed? ==> proc.own == w.procs[p].own && proc.ref == w.procs[p].ref && proc.claimed == w.lesson.billedVia.value))
  }

  lemma ClaimKeeps(w: World, p: nat, proc: Process, v: World)
    requires Inv(w) && At(w, p) && ClaimMade(w, p, proc, v)
    ensures Inv(v)
  {
    forall i | 0 <= i < |v.procs| ensures Priced(v, v.procs[i]) {
      assert Priced(w, w.procs[i]);
    }
    forall i | 0 <= i < |v.procs| && v.procs[i].Reserved? ensures PrivateRef(v, i) {
      ClaimPrivate(w, p, proc, v, i);
    }
    forall i | 0 <= i < |v.procs| && InWindow(v.procs[i]) ensures WindowSound(v, i) {
      ClaimWindow(w, p, proc, v, i);
    }
  }

  lemma ClaimPrivate(w: World, p: nat, proc: Process, v: World, i: nat)
    requires Inv(w) && At(w, p) && ClaimMade(w, p, proc, v) && i < |v.procs| && v.procs[i].Reserved?
    ensures PrivateRef(v, i)
  {
    assert PrivateRef(w, i);
  }

  lemma ClaimWindow(w: World, p: nat, proc: Process, v: World, i: nat)
    requires Inv(w) && At(w, p) && ClaimMade(w, p, proc, v) && i < |v.procs| && InWindow(v.procs[i])
    ensures WindowSound(v, i)
  {
    assert InWindow(w.procs[i]) && WindowSound(w, i);
  }

  /** A settlement, by any of the three claimants. */
  lemma SettleKeeps(w: World, p: nat, m: Move, v: World)
    requires Inv(w) && At(w, p) && Claiming(w.procs[p])
    requires if w.procs[p].LaunchClaimed? then m == Compensate(p)
             else if w.procs[p].CancelClaimed? then m == CancelSettles(p) else m == TaskSettles(p)
    requires v == Settled(w, p, m)
    ensures Inv(v)
  {
    SettlingFrame(w, p, m);
    SettledShape(w, p, m);
    FinishedKeeps(w, p, v);
  }

  function AccountAfter(w: World, m: Move): Account {
    if Induced(w, m).Some? then Next(w.account, Induced(w, m).value) else w.account
  }

  lemma SettledShape(w: World, p: nat, m: Move)
    requires At(w, p)
    ensures var v := Settled(w, p, m);
            && v.procs == w.procs[p := Finished] && v.lesson == w.lesson && v.minted == w.minted && v.claims == w.claims
            && v.author == w.author && v.tags == w.tags && v.others == w.others && v.account == AccountAfter(w, m)
  {
    SlotShape(Paid(w, m), p, w.procs[p]);
  }

  /** What a settlement changes: at most the ledger facts of the settled ref, which it leaves finalized or untouched. */
  lemma SettlingFrame(w: World, p: nat, m: Move)
    requires Inv(w) && At(w, p) && Claiming(w.procs[p])
    requires if w.procs[p].LaunchClaimed? then m == Compensate(p)
             else if w.procs[p].CancelClaimed? then m == CancelSettles(p) else m == TaskSettles(p)
    ensures forall r :: r in w.minted && Some(r) != KnownRef(w.procs[p]) ==> SameFacts(w.account, AccountAfter(w, m), r)
    ensures forall r :: r in w.minted ==> IsFinalized(AccountAfter(w, m), r) || SameFacts(w.account, AccountAfter(w, m), r)
  {
    assert Priced(w, w.procs[p]);
    if Induced(w, m).Some? {
      var step := Induced(w, m).value;
      SettlingFinalizes(w.account, step);
      forall r | r in w.minted && Some(r) != KnownRef(w.procs[p]) ensures SameFacts(w.account, Next(w.account, step), r) {
        FrameRef(w.account, step, r);
      }
    }
  }

  ghost predicate SameFacts(a: Account, b: Account, ref: Ref) {
    Outstanding(b.ledger, ref) == Outstanding(a.ledger, ref) && IsFinalized(b, ref) == IsFinalized(a, ref)
  }

  /** Process `p` is done; every other minted ref keeps its ledger facts, its own is finalized or keeps them too. */
  ghost predicate Done(w: World, p: nat, v: World)
    requires At(w, p)
  {
    && v.procs == w.procs[p := Finished] && v.lesson == w.lesson && v.minted == w.minted && v.claims == w.claims
    && (forall r :: r in w.minted && Some(r) != KnownRef(w.procs[p]) ==> SameFacts(w.account, v.account, r))
    && (forall r :: r in w.minted ==> IsFinalized(v.account, r) || SameFacts(w.account, v.account, r))
  }

  lemma FinishedKeeps(w: World, p: nat, v: World)
    requires Inv(w) && At(w, p) && Claiming(w.procs[p]) && Done(w, p, v)
    ensures Inv(v)
  {
    forall i | 0 <= i < |v.procs| ensures Priced(v, v.procs[i]) {
      assert Priced(w, w.procs[i]);
    }
    FinishedRow(w, p, v);
    forall i | 0 <= i < |v.procs| && v.procs[i].Reserved? ensures PrivateRef(v, i) {
      FinishedPrivate(w, p, v, i);
    }
    forall i | 0 <= i < |v.procs| && InWindow(v.procs[i]) ensures WindowSound(v, i) {
      FinishedWindow(w, p, v, i);
    }
  }

  lemma FinishedRow(w: World, p: nat, v: World)
    requires Inv(w) && At(w, p) && Claiming(w.procs[p]) && Done(w, p, v)
    ensures RowSound(v)
  {
    assert Priced(w, w.procs[p]);
  }

  lemma FinishedPrivate(w: World, p: nat, v: World, i: nat)
    requires Inv(w) && At(w, p) && Done(w, p, v) && i < |v.procs| && v.procs[i].Reserved?
    ensures PrivateRef(v, i)
  {
    assert PrivateRef(w, i) && Priced(w, w.procs[i]);
    assert KnownRef(w.procs[p]) != Some(w.procs[i].ref);
  }

  lemma FinishedWindow(w: World, p: nat, v: World, i: nat)
    requires Inv(w) && At(w, p) && Claiming(w.procs[p]) && Done(w, p, v) && i < |v.procs| && InWindow(v.procs[i])
    ensures WindowSound(v, i)
  {
    assert WindowSound(w, i) && Priced(w, w.procs[i]);
  }

  lemma ElsewhereKeeps(w: World, step: Step)
    requires Inv(w) && Orderly(w, ElsewhereOnAccount(step))
    ensures Inv(StepAccount(w, step))
  {
    forall r | r in w.minted
      ensures Outstanding(Next(w.account, step).ledger, r) == Outstanding(w.account.ledger, r)
      ensures IsFinalized(Next(w.account, step), r) == IsFinalized(w.account, r)
    {
      FrameRef(w.account, step, r);
    }
    var v := StepAccount(w, step);
    forall i | 0 <= i < |v.procs| ensures Priced(v, v.procs[i]) {
      assert Priced(w, w.procs[i]);
    }
    forall i | 0 <= i < |v.procs| && v.procs[i].Reserved? ensures PrivateRef(v, i) {
      assert PrivateRef(w, i) && Priced(w, w.procs[i]);
    }
    forall i | 0 <= i < |v.procs| && InWindow(v.procs[i]) ensures WindowSound(v, i) {
      assert WindowSound(w, i) && Priced(w, w.procs[i]);
    }
  }

  lemma FinishKeeps(w: World, p: nat)
    requires Inv(w) && At(w, p)
    ensures Inv(Put(w, p, Finished))
  {
    var v := Put(w, p, Finished);
    forall i | 0 <= i < |v.procs| ensures Priced(v, v.procs[i]) {
      assert Priced(w, w.procs[i]);
    }
    forall i | 0 <= i < |v.procs| && v.procs[i].Reserved? ensures PrivateRef(v, i) {
      assert PrivateRef(w, i);
    }
    forall i | 0 <= i < |v.procs| && InWindow(v.procs[i]) ensures WindowSound(v, i) {
      assert WindowSound(w, i);
    }
  }

  /** Any of the three claims. */
  lemma ClaimMoveKeeps(w: World, m: Move)
    requires Inv(w) && IsClaim(m)
    ensures Inv(Claims(w, m))
  {
    var p, v := m.p, Claims(w, m);
    if MayClaim(w, m) {
      assert Priced(w, w.procs[p]);
      ClaimKeeps(w, p, v.procs[p], v);
    }
  }

  /** Another lesson takes or returns a slot. */
  lemma SlotMoveKeeps(w: World, v: World)
    requires Inv(w) && v == w.(used := v.used, others := v.others)
    ensures Inv(v)
  {
    forall i | 0 <= i < |v.procs| ensures Priced(v, v.procs[i]) {
      assert Priced(w, w.procs[i]);
    }
    forall i | 0 <= i < |v.procs| && v.procs[i].Reserved? ensures PrivateRef(v, i) {
      assert PrivateRef(w, i);
    }
    forall i | 0 <= i < |v.procs| && InWindow(v.procs[i]) ensures WindowSound(v, i) {
      assert WindowSound(w, i);
    }
  }

  lemma MoveKeepsInv(w: World, m: Move)
    requires Inv(w) && Orderly(w, m)
    ensures Inv(After(w, m))
  {
    if IsClaim(m) {
      ClaimMoveKeeps(w, m);
    } else if IsSettlement(m) {
      if MaySettle(w, m) {
        SettleKeeps(w, m.p, m, Settles(w, m));
      }
    } else {
      OtherMoveKeeps(w, m);
    }
  }

  lemma OtherMoveKeeps(w: World, m: Move)
    requires Inv(w) && Orderly(w, m) && !IsClaim(m) && !IsSettlement(m)
    ensures Inv(After(w, m))
  {
    match m
    case LaunchOnCredits(kind, ref, estimate) => LaunchOnCreditsKeeps(w, kind, ref, estimate);
    case LaunchOnTrial(kind, ref, estimate) => LaunchOnTrialKeeps(w, kind, ref, estimate);
    case WriteRow(p) => WriteRowKeeps(w, p);
    case BrokerAccepts(p) => if At(w, p) && w.procs[p].Tagged? { FinishKeeps(w, p); }
    case CancelBegins(kind) => BeginKeeps(w, CancelRead(kind, w.lesson.billingRef));
    case TaskBegins(kind) =>
      if w.lesson.billedVia.Some? {
        BeginKeeps(w, TaskRead(kind, w.lesson.billingRef, w.lesson.estimate));
      }
    case ElsewhereOnAccount(step) => ElsewhereKeeps(w, step);
    case _ => SlotMoveKeeps(w, After(w, m));
  }

  // ----- whole runs: credits -----

  /** The account steps of a run, in order. */
  function AccountSteps(w: World, moves: seq<Move>): seq<Step> {
    if moves == [] then []
    else
      var n := |moves| - 1;
      var step := Induced(Play(w, moves[..n]), moves[n]);
      if step.Some? then AccountSteps(w, moves[..n]) + [step.value] else AccountSteps(w, moves[..n])
  }

  function WithInduced(w: World, m: Move, steps: seq<Step>): seq<Step> {
    if Induced(w, m).Some? then steps + [Induced(w, m).value] else steps
  }

  lemma MoveOnAccount(w: World, m: Move)
    ensures After(w, m).account == if Induced(w, m).Some? then Next(w.account, Induced(w, m).value) else w.account
  {
  }

  lemma AllowedSnoc(a: Account, steps: seq<Step>, step: Step)
    requires AllAllowed(a, steps) && Allowed(Run(a, steps), step)
    ensures AllAllowed(a, steps + [step]) && Run(a, steps + [step]) == Next(Run(a, steps), step)
  {
    assert (steps + [step])[..|steps|] == steps;
  }

  lemma MoveRefinesAccount(w: World, m: Move, a: Account, steps: seq<Step>)
    requires Inv(w) && Orderly(w, m) && AllAllowed(a, steps) && Run(a, steps) == w.account
    ensures AllAllowed(a, WithInduced(w, m, steps)) && Run(a, WithInduced(w, m, steps)) == After(w, m).account
  {
    MoveOnAccount(w, m);
    if Induced(w, m).Some? {
      InducedIsAllowed(w, m);
      AllowedSnoc(a, steps, Induced(w, m).value);
    }
  }

  /** Every orderly interleaving of launches, cancels, workers and other traffic is a disciplined run of the account. */
  lemma {:induction false} ProtocolRefinesAccount(w: World, moves: seq<Move>)
    requires Inv(w) && AllOrderly(w, moves)
    ensures Inv(Play(w, moves))
    ensures AllAllowed(w.account, AccountSteps(w, moves))
    ensures Run(w.account, AccountSteps(w, moves)) == Play(w, moves).account
  {
    if moves != [] {
      var n := |moves| - 1;
      ProtocolRefinesAccount(w, moves[..n]);
      MoveKeepsInv(Play(w, moves[..n]), moves[n]);
      MoveRefinesAccount(Play(w, moves[..n]), moves[n], w.account, AccountSteps(w, moves[..n]));
      assert AccountSteps(w, moves) == WithInduced(Play(w, moves[..n]), moves[n], AccountSteps(w, moves[..n]));
    }
  }

  function Start(account: Account, others: nat): World {
    World(account, others, LessonRow(None, None, 0), [], map[], Author(0, Video), map[], {}, 0, others, 0)
  }

  /** So in every such interleaving the broker-failure compensation, the cancel endpoint and the worker never settle a hold
      twice: `reserved` stays the sum of outstanding holds and no ref is overdrawn. */
  lemma ProtocolKeepsHolds(account: Account, others: nat, moves: seq<Move>)
    requires HoldsAgree(account) && Solvent(account) && AllOrderly(Start(account, others), moves)
    ensures var w := Play(Start(account, others), moves);
            && HoldsAgree(w.account) && w.account.balance >= BalanceSum(w.account.ledger)
            && w.claims <= 1
            && AboutToReleaseWhole(w)
  {
    var start := Start(account, others);
    ProtocolRefinesAccount(start, moves);
    HoldsAgreeInEveryRun(account, AccountSteps(start, moves));
    InvReleasesWhole(Play(start, moves));
  }

  /** A compensation about to release credits releases a whole, untouched hold. */
  ghost predicate AboutToReleaseWhole(w: World) {
    forall i :: 0 <= i < |w.procs| && w.procs[i].LaunchClaimed? && w.procs[i].claimed.Credits? ==>
      Outstanding(w.account.ledger, w.procs[i].ref) == w.procs[i].estimate
  }

  lemma InvReleasesWhole(w: World)
    requires Inv(w)
    ensures AboutToReleaseWhole(w) && w.claims <= 1
  {
    forall i | 0 <= i < |w.procs| && w.procs[i].LaunchClaimed? && w.procs[i].claimed.Credits?
      ensures Outstanding(w.account.ledger, w.procs[i].ref) == w.procs[i].estimate
    {
      assert WindowSound(w, i) && Priced(w, w.procs[i]);
    }
  }

  // ----- runs given move by move -----

  lemma PlayStep(w: World, moves: seq<Move>, k: nat, before: World, later: World)
    requires k < |moves| && Play(w, moves[..k]) == before && After(before, moves[k]) == later
    ensures Play(w, moves[..k + 1]) == later
    ensures AllOrderly(w, moves[..k]) && Orderly(before, moves[k]) ==> AllOrderly(w, moves[..k + 1])
  {
    assert moves[..k + 1][..k] == moves[..k];
  }

  ghost predicate Leads(worlds: seq<World>, moves: seq<Move>, i: nat) {
    i < |moves| && i + 1 < |worlds| && After(worlds[i], moves[i]) == worlds[i + 1]
  }

  ghost predicate LeadsOrderly(worlds: seq<World>, moves: seq<Move>, i: nat) {
    Leads(worlds, moves, i) && Orderly(worlds[i], moves[i])
  }

  /** A list of worlds, each the successor of the one before, is the run of its moves. */
  lemma {:induction false} TraceIsRun(worlds: seq<World>, moves: seq<Move>, n: nat)
    requires n <= |moves| && n < |worlds|
    requires forall i: nat :: i < n ==> Leads(worlds, moves, i)
    ensures Play(worlds[0], moves[..n]) == worlds[n]
  {
    if n > 0 {
      TraceIsRun(worlds, moves, n - 1);
      assert Leads(worlds, moves, n - 1);
      PlayStep(worlds[0], moves, n - 1, worlds[n - 1], worlds[n]);
    }
  }

  lemma {:induction false} TraceIsOrderly(worlds: seq<World>, moves: seq<Move>, n: nat)
    requires n <= |moves| && n < |worlds|
    requires forall i: nat :: i < n ==> LeadsOrderly(worlds, moves, i)
    ensures AllOrderly(worlds[0], moves[..n])
  {
    if n > 0 {
      TraceIsOrderly(worlds, moves, n - 1);
      assert forall i: nat :: i < n ==> LeadsOrderly(worlds, moves, i) ==> Leads(worlds, moves, i);
      TraceIsRun(worlds, moves, n - 1);
      assert LeadsOrderly(worlds, moves, n - 1);
      PlayStep(worlds[0], moves, n - 1, worlds[n - 1], worlds[n]);
    }
  }
}
