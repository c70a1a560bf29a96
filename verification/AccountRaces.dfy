/** Restore and release request by request (services/account_service.py, restore_account and confirm_email_release): each reads
    the user row without a lock, checks it, and commits its columns later. Everything else is one step of AccountLifecycle. */
module AccountRaces {
  import opened Common
  import opened AccountLifecycle

  /** What a request holds between its read and its commit: the row as it read it. */
  datatype Pending = Restoring(uid: Uid, seen: User) | Releasing(uid: Uid, seen: User)

  datatype Race = Race(world: World, pending: map<nat, Pending>)

  datatype Move =
    | Whole(event: Event)
    | ReadsToRestore(p: nat, owner: Uid, proven: bool)
    | ReadsToRelease(p: nat, link: Link)
    | Commits(p: nat)

  /** The columns the request sets, on its copy. */
  function Mine(request: Pending): User {
    match request
    case Restoring(_, seen) => seen.(deletedAt := None, active := true)
    case Releasing(_, seen) => Anonymized(seen)
  }

  function WrittenUser(seen: User, mine: User, stored: User): User {
    User(Written(seen.deletedAt, mine.deletedAt, stored.deletedAt), Written(seen.active, mine.active, stored.active),
         Written(seen.anonymized, mine.anonymized, stored.anonymized), Written(seen.personal, mine.personal, stored.personal))
  }

  /** An UPDATE of a row that is gone matches nothing, and the request fails. */
  function Committed(w: World, request: Pending): World {
    if request.uid !in w.users then w
    else w.(users := w.users[request.uid := WrittenUser(request.seen, Mine(request), w.users[request.uid])])
  }

  function Next(r: Race, m: Move): Race {
    match m
    case Whole(event) => r.(world := After(r.world, event))
    case ReadsToRestore(p, owner, proven) =>
      if p in r.pending || !proven || !Restorable(r.world, owner) then r
      else r.(pending := r.pending[p := Restoring(owner, r.world.users[owner])])
    case ReadsToRelease(p, link) =>
      if p in r.pending || !Usable(r.world, link, ReleaseLink) then r
      else
        var uid, burned := link.uid, r.(world := Burn(r.world, link));
        if uid !in r.world.users || Present(r.world, uid) || r.world.users[uid].anonymized then burned
        else burned.(pending := r.pending[p := Releasing(uid, r.world.users[uid])])
    case Commits(p) => if p in r.pending then Race(Committed(r.world, r.pending[p]), r.pending - {p}) else r
  }

  function Run(r: Race, moves: seq<Move>): Race {
    if moves == [] then r else Next(Run(r, moves[..|moves| - 1]), moves[|moves| - 1])
  }

  /** Nothing committed between read and commit: the two halves are the one-step events. */
  lemma UnbrokenRestore(w: World, uid: Uid, proven: bool)
    ensures Run(Race(w, map[]), [ReadsToRestore(0, uid, proven), Commits(0)]).world == After(w, RestoreByPassword(uid, proven))
  {
    TwoMoves(Race(w, map[]), ReadsToRestore(0, uid, proven), Commits(0));
  }

  lemma UnbrokenRelease(w: World, link: Link)
    ensures Run(Race(w, map[]), [ReadsToRelease(0, link), Commits(0)]).world == After(w, ConfirmRelease(link))
  {
    TwoMoves(Race(w, map[]), ReadsToRelease(0, link), Commits(0));
  }

  lemma TwoMoves(r: Race, first: Move, second: Move)
    ensures Run(r, [first, second]) == Next(Next(r, first), second)
  {
    assert [first, second][..1] == [first] && [first][..0] == [];
    assert Run(r, [first]) == Next(r, first);
  }

  lemma ThreeMoves(r: Race, first: Move, second: Move, third: Move)
    ensures Run(r, [first, second, third]) == Next(Next(Next(r, first), second), third)
  {
    assert [first, second, third][..2] == [first, second];
    TwoMoves(r, first, second);
  }

  // ----- what a copy knows -----

  /** A request holds the copy of a row that was deleted, inactive and not anonymized. */
  ghost predicate CopySound(w: World, request: Pending) {
    && request.seen.deletedAt.Some? && !request.seen.active && !request.seen.anonymized
    && request.uid < w.nextId
    && (request.uid in w.users && w.users[request.uid].personal ==> request.seen.personal)
  }

  ghost predicate RaceInv(r: Race) {
    Inv(r.world) && forall p :: p in r.pending ==> CopySound(r.world, r.pending[p])
  }

  lemma CopyStaysSound(w: World, v: World, request: Pending)
    requires CopySound(w, request) && w.nextId <= v.nextId
    requires request.uid in v.users ==> request.uid in w.users && (v.users[request.uid].personal ==> w.users[request.uid].personal)
    ensures CopySound(v, request)
  {
  }

  lemma PersonalOnlyFalls(w: World, e: Event, uid: Uid)
    requires uid < w.nextId
    ensures var v := After(w, e);
            && w.nextId <= v.nextId
            && (uid in v.users ==> uid in w.users && (v.users[uid].personal ==> w.users[uid].personal))
  {
  }

  /** The row as it is when the request commits. */
  lemma CommittedRow(w: World, request: Pending)
    requires CopySound(w, request) && request.uid in w.users
    ensures var row, now := w.users[request.uid], Committed(w, request).users[request.uid];
            if request.Restoring? then now == row.(deletedAt := None, active := true)
            else now == row.(anonymized := true, personal := false)
  {
  }

  // ----- an anonymized row, a live row -----

  /** The commit finds the row as its read found it: not anonymized, or still deleted. */
  ghost predicate Harmless(r: Race, m: Move) {
    m.Commits? && m.p in r.pending && r.pending[m.p].uid in r.world.users ==>
      var row := r.world.users[r.pending[m.p].uid];
      if r.pending[m.p].Restoring? then !row.anonymized else row.deletedAt.Some?
  }

  ghost predicate AllHarmless(r: Race, moves: seq<Move>) {
    moves == [] || (AllHarmless(r, moves[..|moves| - 1]) && Harmless(Run(r, moves[..|moves| - 1]), moves[|moves| - 1]))
  }

  /** No account is live and anonymized at once. */
  ghost predicate NoneLiveAnonymized(w: World) {
    forall uid :: uid in w.users && w.users[uid].anonymized ==> w.users[uid].deletedAt.Some?
  }

  ghost predicate NoneEver(r: Race, moves: seq<Move>) {
    moves == [] || (NoneEver(r, moves[..|moves| - 1]) && NoneLiveAnonymized(Run(r, moves).world))
  }

  lemma CommitIff(r: Race, p: nat)
    requires RaceInv(r) && p in r.pending
    ensures NoneLiveAnonymized(Next(r, Commits(p)).world) <==> Harmless(r, Commits(p))
    ensures Harmless(r, Commits(p)) ==> RaceInv(Next(r, Commits(p)))
  {
    var w, request := r.world, r.pending[p];
    var v := Committed(w, request);
    if request.uid in w.users {
      CommittedRow(w, request);
      assert UserSound(w.now, w.users[request.uid]);
      SoundRows(w);
      if Harmless(r, Commits(p)) {
        assert UserSound(v.now, v.users[request.uid]);
      }
      forall q | q in r.pending ensures CopySound(v, r.pending[q]) {
        CopyStaysSound(w, v, r.pending[q]);
      }
    }
  }

  lemma ReadKeepsInv(r: Race, m: Move)
    requires RaceInv(r) && (m.ReadsToRestore? || m.ReadsToRelease?)
    ensures RaceInv(Next(r, m)) && Next(r, m).world.users == r.world.users
  {
    var uid := if m.ReadsToRestore? then m.owner else m.link.uid;
    assert uid in r.world.users ==> UserSound(r.world.now, r.world.users[uid]);
    var v := Next(r, m).world;
    assert Inv(v);
    forall q | q in r.pending ensures CopySound(v, r.pending[q]) {
      CopyStaysSound(r.world, v, r.pending[q]);
    }
  }

  lemma WholeKeepsInv(r: Race, e: Event)
    requires RaceInv(r)
    ensures RaceInv(Next(r, Whole(e)))
  {
    EventKeepsInv(r.world, e);
    forall q | q in r.pending ensures CopySound(After(r.world, e), r.pending[q]) {
      PersonalOnlyFalls(r.world, e, r.pending[q].uid);
      CopyStaysSound(r.world, After(r.world, e), r.pending[q]);
    }
  }

  lemma SoundRows(w: World)
    requires Inv(w)
    ensures NoneLiveAnonymized(w)
  {
    forall uid | uid in w.users && w.users[uid].anonymized ensures w.users[uid].deletedAt.Some? {
      assert UserSound(w.now, w.users[uid]);
    }
  }

  lemma MoveIff(r: Race, m: Move)
    requires RaceInv(r)
    ensures NoneLiveAnonymized(Next(r, m).world) <==> Harmless(r, m)
    ensures Harmless(r, m) ==> RaceInv(Next(r, m))
  {
    match m
    case Whole(e) => WholeKeepsInv(r, e); SoundRows(Next(r, m).world);
    case Commits(p) => if p in r.pending { CommitIff(r, p); } else { SoundRows(r.world); }
    case _ => ReadKeepsInv(r, m); SoundRows(Next(r, m).world);
  }

  /** Over every run of whole requests and of restores and releases that overlap in any way: no account is ever live and
      anonymized if and only if every commit finds its row as its read found it, a restore no anonymized row and a release no
      restored one. */
  lemma {:induction false} NoneEverIff(w: World, moves: seq<Move>)
    requires Inv(w)
    ensures NoneEver(Race(w, map[]), moves) <==> AllHarmless(Race(w, map[]), moves)
    ensures AllHarmless(Race(w, map[]), moves) ==> RaceInv(Run(Race(w, map[]), moves))
  {
    if moves != [] {
      NoneEverIff(w, moves[..|moves| - 1]);
      if AllHarmless(Race(w, map[]), moves[..|moves| - 1]) {
        MoveIff(Run(Race(w, map[]), moves[..|moves| - 1]), moves[|moves| - 1]);
      }
    }
  }

  // ----- one anonymized row -----

  /** The id's row is gone, or anonymized and deleted. */
  ghost predicate Gone(w: World, uid: Uid) {
    Buried(w, uid) && !Present(w, uid)
  }

  ghost predicate LateRestore(r: Race, m: Move, uid: Uid) {
    m.Commits? && m.p in r.pending && r.pending[m.p].Restoring? && r.pending[m.p].uid == uid && uid in r.world.users
  }

  ghost predicate NoLateRestore(r: Race, moves: seq<Move>, uid: Uid) {
    moves == []
    || (NoLateRestore(r, moves[..|moves| - 1], uid) && !LateRestore(Run(r, moves[..|moves| - 1]), moves[|moves| - 1], uid))
  }

  ghost predicate GoneThroughout(r: Race, moves: seq<Move>, uid: Uid) {
    moves == [] || (GoneThroughout(r, moves[..|moves| - 1], uid) && Gone(Run(r, moves).world, uid))
  }

  /** Every copy was read from a deleted row. */
  ghost predicate CopiesDeleted(r: Race) {
    forall p :: p in r.pending ==> r.pending[p].seen.deletedAt.Some? && !r.pending[p].seen.anonymized
  }

  lemma MoveKeepsCopies(r: Race, m: Move)
    requires CopiesDeleted(r)
    ensures CopiesDeleted(Next(r, m))
  {
  }

  lemma WholeKeepsGone(w: World, e: Event, uid: Uid)
    requires Gone(w, uid)
    ensures Gone(After(w, e), uid)
  {
  }

  lemma GoneStep(r: Race, m: Move, uid: Uid)
    requires CopiesDeleted(r) && Gone(r.world, uid)
    ensures Gone(Next(r, m).world, uid) <==> !LateRestore(r, m, uid)
  {
    if m.Whole? {
      WholeKeepsGone(r.world, m.event, uid);
    } else if m.Commits? && m.p in r.pending {
      CommitAtGone(r.world, r.pending[m.p], uid);
    }
  }

  lemma CommitAtGone(w: World, request: Pending, uid: Uid)
    requires Gone(w, uid) && request.seen.deletedAt.Some? && !request.seen.anonymized
    ensures Gone(Committed(w, request), uid) <==> !(request.Restoring? && request.uid == uid && uid in w.users)
  {
  }

  /** An anonymized account comes back to life, in whatever run, if and only if a restore that read the row before it was
      anonymized commits after it, while the row is still there. */
  lemma {:induction false} AnonymizedRevivesIff(r: Race, moves: seq<Move>, uid: Uid)
    requires CopiesDeleted(r) && Gone(r.world, uid)
    ensures GoneThroughout(r, moves, uid) <==> NoLateRestore(r, moves, uid)
    ensures CopiesDeleted(Run(r, moves)) && (GoneThroughout(r, moves, uid) ==> Gone(Run(r, moves).world, uid))
  {
    if moves != [] {
      var front, m := moves[..|moves| - 1], moves[|moves| - 1];
      AnonymizedRevivesIff(r, front, uid);
      MoveKeepsCopies(Run(r, front), m);
      if GoneThroughout(r, front, uid) {
        GoneStep(Run(r, front), m, uid);
      }
    }
  }

  // ----- it happens -----

  /** A release commits between a restore's read and its commit: the account is live again without its personal data. */
  lemma RestoreRevivesAnonymized(w: World, link: Link)
    requires Inv(w) && Usable(w, link, ReleaseLink) && Restorable(w, link.uid)
    ensures var moves := [ReadsToRestore(0, link.uid, true), Whole(ConfirmRelease(link)), Commits(0)];
            var v := Run(Race(w, map[]), moves).world;
            Present(v, link.uid) && v.users[link.uid] == User(None, true, true, false)
  {
    var uid := link.uid;
    assert UserSound(w.now, w.users[uid]);
    ThreeMoves(Race(w, map[]), ReadsToRestore(0, uid, true), Whole(ConfirmRelease(link)), Commits(0));
    var later := After(w, ConfirmRelease(link));
    assert later.users == w.users[uid := Anonymized(w.users[uid])];
    CommittedRow(later, Restoring(uid, w.users[uid]));
  }

  /** A restore commits between a release's read and its commit: the live account is anonymized by a link that is older than
      the restore, which the second look at `deleted_at` was to prevent. */
  lemma ReleaseAnonymizesRestored(w: World, link: Link)
    requires Inv(w) && Usable(w, link, ReleaseLink) && Restorable(w, link.uid)
    ensures var moves := [ReadsToRelease(0, link), Whole(RestoreByPassword(link.uid, true)), Commits(0)];
            var v := Run(Race(w, map[]), moves).world;
            Present(v, link.uid) && v.users[link.uid] == User(None, true, true, false)
  {
    var uid := link.uid;
    assert UserSound(w.now, w.users[uid]);
    ThreeMoves(Race(w, map[]), ReadsToRelease(0, link), Whole(RestoreByPassword(uid, true)), Commits(0));
    var burned := Burn(w, link);
    var later := After(burned, RestoreByPassword(uid, true));
    assert later.users == w.users[uid := w.users[uid].(deletedAt := None, active := true)];
    CommittedRow(later, Releasing(uid, w.users[uid]));
  }
}
