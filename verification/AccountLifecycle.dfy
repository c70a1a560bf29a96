/** services/account_service.py and the user guard of tasks/purge_pipeline.py: deletion, restore, early release, anonymization.
    Each request and each purged row is one transaction; time is in whole seconds. */
module AccountLifecycle {
  import opened Common

  type Uid = nat

  const DAY := 24 * 3600
  const SOFT_DELETE_PURGE_DAYS := 30
  const WINDOW := SOFT_DELETE_PURGE_DAYS * DAY
  const ACCOUNT_RESTORE_TTL_SECONDS := SOFT_DELETE_PURGE_DAYS * 24 * 60 * 60
  const EMAIL_RELEASE_TTL_SECONDS := 60 * 60 * 24
  const ACCOUNT_DELETE_TTL_SECONDS := 60 * 30
  const ACCOUNT_DELETE_COOLDOWN_SECONDS := 60

  datatype Purpose = DeleteLink | ReleaseLink | RestoreLink

  /** A signed link carries its salt, the user id and the second it was signed; equal ones are the same string. */
  datatype Link = Link(purpose: Purpose, uid: Uid, at: int)

  /** The email tells whether the row is anonymized; `personal` stands for the fields that anonymization strips. */
  datatype User = User(deletedAt: Option<int>, active: bool, anonymized: bool, personal: bool)

  /** `burned` and `cooldown` are Redis keys with the moment they expire; `links` is every link ever mailed. */
  datatype World = World(now: int, users: map<Uid, User>, nextId: Uid, burned: map<Link, int>, cooldown: map<Uid, int>, links: set<Link>)

  datatype Event =
    | Register
    | RequestDeletion(requester: Uid, busy: bool)
    | ConfirmDeletion(link: Link, lessonsInFlight: bool)
    | RestoreByLink(restoreLink: Link)
    | RestoreByPassword(owner: Uid, verified: bool)
    | RequestRelease(holder: Uid)
    | ConfirmRelease(releaseLink: Link)
    | Purge(candidate: Uid, learningData: bool)
    | Tick(seconds: nat)

  function Ttl(purpose: Purpose): int {
    match purpose
    case DeleteLink => ACCOUNT_DELETE_TTL_SECONDS
    case ReleaseLink => EMAIL_RELEASE_TTL_SECONDS
    case RestoreLink => ACCOUNT_RESTORE_TTL_SECONDS
  }

  /** loads(max_age): signed by us under this salt, and not older than the limit. */
  predicate Verifies(w: World, link: Link, purpose: Purpose) {
    link in w.links && link.purpose == purpose && w.now - link.at <= Ttl(purpose)
  }

  predicate Burned(w: World, link: Link) {
    link in w.burned && w.now < w.burned[link]
  }

  /** The token part of a confirmation succeeds: it verifies and SET NX burns it. */
  predicate Usable(w: World, link: Link, purpose: Purpose) {
    Verifies(w, link, purpose) && !Burned(w, link)
  }

  function Burn(w: World, link: Link): World {
    w.(burned := w.burned[link := w.now + Ttl(link.purpose)])
  }

  predicate CoolingDown(w: World, uid: Uid) {
    uid in w.cooldown && w.now < w.cooldown[uid]
  }

  predicate WithinWindow(w: World, user: User) {
    user.deletedAt.Some? && w.now < user.deletedAt.value + WINDOW
  }

  predicate Restorable(w: World, uid: Uid) {
    uid in w.users && w.users[uid].deletedAt.Some? && !w.users[uid].anonymized && WithinWindow(w, w.users[uid])
  }

  predicate Purgeable(w: World, uid: Uid) {
    uid in w.users && w.users[uid].deletedAt.Some? && w.users[uid].deletedAt.value < w.now - WINDOW
  }

  predicate Present(w: World, uid: Uid) {
    uid in w.users && w.users[uid].deletedAt.None?
  }

  /** anonymize_user_fields; `deleted_at` stays. */
  function Anonymized(user: User): User {
    user.(anonymized := true, personal := false, active := false)
  }

  function Restored(w: World, uid: Uid): World
    requires uid in w.users
  {
    w.(users := w.users[uid := w.users[uid].(deletedAt := None, active := true)])
  }

  /** A successful deletion also mails the restore link. */
  function Deleted(w: World, uid: Uid): World
    requires uid in w.users
  {
    w.(users := w.users[uid := w.users[uid].(deletedAt := Some(w.now), active := false)],
       links := w.links + {Link(RestoreLink, uid, w.now)})
  }

  function After(w: World, e: Event): World {
    match e
    case Register => w.(users := w.users[w.nextId := User(None, true, false, true)], nextId := w.nextId + 1)
    case RequestDeletion(requester, busy) =>
      if Present(w, requester) && !busy && !CoolingDown(w, requester) then
        w.(links := w.links + {Link(DeleteLink, requester, w.now)},
           cooldown := w.cooldown[requester := w.now + ACCOUNT_DELETE_COOLDOWN_SECONDS])
      else w
    case ConfirmDeletion(link, lessonsInFlight) =>
      if !Usable(w, link, DeleteLink) then w
      else if !Present(w, link.uid) || lessonsInFlight then Burn(w, link)
      else Deleted(Burn(w, link), link.uid)
    case RestoreByLink(restoreLink) =>
      if Verifies(w, restoreLink, RestoreLink) && Restorable(w, restoreLink.uid) then Restored(w, restoreLink.uid) else w
    case RestoreByPassword(owner, verified) => if verified && Restorable(w, owner) then Restored(w, owner) else w
    case RequestRelease(holder) =>
      if Restorable(w, holder) then w.(links := w.links + {Link(ReleaseLink, holder, w.now)}) else w
    case ConfirmRelease(releaseLink) =>
      if !Usable(w, releaseLink, ReleaseLink) then w
      else
        var uid := releaseLink.uid;
        var burned := Burn(w, releaseLink);
        if uid !in w.users || Present(w, uid) || w.users[uid].anonymized then burned
        else burned.(users := w.users[uid := Anonymized(w.users[uid])])
    case Purge(candidate, learningData) =>
      if !Purgeable(w, candidate) then w
      else if !learningData then w.(users := w.users - {candidate})
      else if w.users[candidate].anonymized then w
      else w.(users := w.users[candidate := Anonymized(w.users[candidate])])
    case Tick(seconds) => w.(now := w.now + seconds)
  }

  function Play(w: World, events: seq<Event>): World {
    if events == [] then w else After(Play(w, events[..|events| - 1]), events[|events| - 1])
  }

  lemma PlaySnoc(w: World, events: seq<Event>, e: Event)
    ensures Play(w, []) == w && Play(w, events + [e]) == After(Play(w, events), e)
  {
    assert (events + [e])[..|events|] == events;
  }

  // ----- rows -----

  ghost predicate UserSound(now: int, user: User) {
    && (user.active <==> user.deletedAt.None?)
    && (user.anonymized ==> user.deletedAt.Some? && !user.personal)
    && (user.deletedAt.Some? ==> user.deletedAt.value <= now)
  }

  ghost predicate Inv(w: World) {
    RowsSound(w) && LinksSound(w)
  }

  ghost predicate RowsSound(w: World) {
    forall uid :: uid in w.users ==> uid < w.nextId && UserSound(w.now, w.users[uid])
  }

  ghost predicate LinksSound(w: World) {
    && (forall link :: link in w.links ==> link.at <= w.now)
    && (forall link :: link in w.burned ==> link.at + Ttl(link.purpose) <= w.burned[link])
    && (forall link :: link in w.links && link.purpose == DeleteLink ==>
          link.uid in w.cooldown && link.at + ACCOUNT_DELETE_COOLDOWN_SECONDS <= w.cooldown[link.uid])
  }

  /** At most one row is new, changed or gone. */
  lemma OneRowKeepsSound(w: World, v: World, uid: Uid)
    requires RowsSound(w) && v.now >= w.now && v.nextId >= w.nextId
    requires forall u :: u in v.users && u != uid ==> u in w.users && v.users[u] == w.users[u]
    requires uid in v.users ==> uid < v.nextId && UserSound(v.now, v.users[uid])
    ensures RowsSound(v)
  {
    forall u | u in v.users ensures u < v.nextId && UserSound(v.now, v.users[u]) {
      assert u != uid ==> UserSound(w.now, w.users[u]);
    }
  }

  /** The row an event touches. */
  function Touched(w: World, e: Event): Uid {
    match e
    case Register => w.nextId
    case ConfirmDeletion(link, _) => link.uid
    case RestoreByLink(link) => link.uid
    case RestoreByPassword(owner, _) => owner
    case ConfirmRelease(link) => link.uid
    case Purge(candidate, _) => candidate
    case _ => 0
  }

  lemma TouchesOne(w: World, e: Event, uid: Uid)
    requires uid != Touched(w, e)
    ensures var v := After(w, e); (uid in v.users <==> uid in w.users) && (uid in v.users ==> v.users[uid] == w.users[uid])
  {
  }

  lemma TouchedIsSound(w: World, e: Event)
    requires RowsSound(w)
    ensures var v, uid := After(w, e), Touched(w, e);
            v.now >= w.now && v.nextId >= w.nextId && (uid in v.users ==> uid < v.nextId && UserSound(v.now, v.users[uid]))
  {
    var uid := Touched(w, e);
    assert uid in w.users ==> uid < w.nextId && UserSound(w.now, w.users[uid]);
  }

  lemma EventKeepsRows(w: World, e: Event)
    requires RowsSound(w)
    ensures RowsSound(After(w, e))
  {
    TouchedIsSound(w, e);
    forall uid | uid in After(w, e).users && uid != Touched(w, e) ensures uid in w.users && After(w, e).users[uid] == w.users[uid] {
      TouchesOne(w, e, uid);
    }
    OneRowKeepsSound(w, After(w, e), Touched(w, e));
  }

  lemma BurnKeepsLinks(w: World, link: Link)
    requires LinksSound(w) && link.at <= w.now
    ensures LinksSound(Burn(w, link))
  {
  }

  lemma MailKeepsLinks(w: World, v: World, link: Link)
    requires LinksSound(w) && v.now == w.now == link.at && v.links == w.links + {link} && v.burned == w.burned
    requires v.cooldown == if link.purpose == DeleteLink then w.cooldown[link.uid := w.now + ACCOUNT_DELETE_COOLDOWN_SECONDS] else w.cooldown
    ensures LinksSound(v)
  {
  }

  lemma EventKeepsLinks(w: World, e: Event)
    requires LinksSound(w)
    ensures LinksSound(After(w, e))
  {
    match e
    case RequestDeletion(requester, _) =>
      if After(w, e) != w {
        MailKeepsLinks(w, After(w, e), Link(DeleteLink, requester, w.now));
      }
    case RequestRelease(holder) =>
      if After(w, e) != w {
        MailKeepsLinks(w, After(w, e), Link(ReleaseLink, holder, w.now));
      }
    case ConfirmDeletion(link, lessonsInFlight) =>
      if Usable(w, link, DeleteLink) {
        BurnKeepsLinks(w, link);
        if Present(w, link.uid) && !lessonsInFlight {
          MailKeepsLinks(Burn(w, link), After(w, e), Link(RestoreLink, link.uid, w.now));
        }
      }
    case ConfirmRelease(link) =>
      if Usable(w, link, ReleaseLink) {
        BurnKeepsLinks(w, link);
      }
    case _ =>
  }

  lemma EventKeepsInv(w: World, e: Event)
    requires Inv(w)
    ensures Inv(After(w, e))
  {
    EventKeepsRows(w, e);
    EventKeepsLinks(w, e);
  }

  lemma {:induction false} InvInEveryRun(w: World, events: seq<Event>)
    requires Inv(w)
    ensures Inv(Play(w, events))
  {
    if events != [] {
      InvInEveryRun(w, events[..|events| - 1]);
      EventKeepsInv(Play(w, events[..|events| - 1]), events[|events| - 1]);
    }
  }

  /** The id's row is gone or anonymized. */
  ghost predicate Buried(w: World, uid: Uid) {
    uid < w.nextId && (uid in w.users ==> w.users[uid].anonymized)
  }

  lemma BuriedStep(w: World, e: Event, uid: Uid)
    requires Inv(w) && Buried(w, uid)
    ensures var v := After(w, e); Buried(v, uid) && (uid in v.users ==> uid in w.users && v.users[uid] == w.users[uid])
  {
    if uid in w.users {
      assert UserSound(w.now, w.users[uid]);
    }
  }

  /** An anonymized row stays as it is, inactive and beyond restoring, until a purge removes it; its id never comes back. */
  lemma {:induction false} AnonymizedForever(w: World, events: seq<Event>, uid: Uid)
    requires Inv(w) && Buried(w, uid)
    ensures var v := Play(w, events);
            && Buried(v, uid) && !Restorable(v, uid) && !Present(v, uid)
            && (uid in v.users ==> uid in w.users && v.users[uid] == w.users[uid] && !v.users[uid].active)
  {
    InvInEveryRun(w, events);
    if events != [] {
      AnonymizedForever(w, events[..|events| - 1], uid);
      InvInEveryRun(w, events[..|events| - 1]);
      BuriedStep(Play(w, events[..|events| - 1]), events[|events| - 1], uid);
    }
    assert uid in Play(w, events).users ==> UserSound(Play(w, events).now, Play(w, events).users[uid]);
  }

  /** No link, however old, anonymizes or removes a row whose deleted_at is null. */
  lemma LiveRowsAreNeverAnonymized(w: World, events: seq<Event>, e: Event, uid: Uid)
    requires Inv(w) && Present(Play(w, events), uid)
    ensures var v := After(Play(w, events), e);
            uid in v.users && !v.users[uid].anonymized && v.users[uid].personal == Play(w, events).users[uid].personal
  {
    InvInEveryRun(w, events);
    LiveRowStays(Play(w, events), e, uid);
  }

  lemma LiveRowStays(w: World, e: Event, uid: Uid)
    requires RowsSound(w) && Present(w, uid)
    ensures var v := After(w, e); uid in v.users && !v.users[uid].anonymized && v.users[uid].personal == w.users[uid].personal
  {
    assert uid < w.nextId && UserSound(w.now, w.users[uid]);
    if uid != Touched(w, e) {
      TouchesOne(w, e, uid);
    }
  }

  /** A deleted row comes back only through a restore, and only before the window of its latest deletion closes. */
  lemma RestoreOnlyInWindow(w: World, e: Event, uid: Uid)
    requires Inv(w) && uid in w.users && w.users[uid].deletedAt.Some?
    ensures Present(After(w, e), uid) <==>
            && Restorable(w, uid)
            && (e == RestoreByPassword(uid, true)
                || (e.RestoreByLink? && e.restoreLink.uid == uid && Verifies(w, e.restoreLink, RestoreLink)))
  {
  }

  /** The restore window is the purge window: a row that is not anonymized is restorable, or purgeable, never both, and at
      exactly one second neither. */
  lemma RestorableXorPurgeable(w: World, uid: Uid)
    requires uid in w.users && w.users[uid].deletedAt.Some? && !w.users[uid].anonymized
    ensures !(Restorable(w, uid) && Purgeable(w, uid))
    ensures !Restorable(w, uid) && !Purgeable(w, uid) <==> w.now == w.users[uid].deletedAt.value + 30 * 24 * 3600
  {
  }

  /** The restore link mailed with a deletion works for the whole window: while the row was not touched otherwise, it
      restores exactly as long as the window is open. */
  lemma MailedLinkCoversWindow(w: World, link: Link, seconds: nat)
    requires Inv(w) && Usable(w, link, DeleteLink) && Present(w, link.uid)
    ensures var v := After(After(w, ConfirmDeletion(link, false)), Tick(seconds));
            Present(After(v, RestoreByLink(Link(RestoreLink, link.uid, w.now))), link.uid) <==> seconds < 30 * 24 * 3600
  {
    var deleted := After(w, ConfirmDeletion(link, false));
    assert deleted.users[link.uid] == w.users[link.uid].(deletedAt := Some(w.now), active := false);
  }

  // ----- links -----

  /** A link that can never be used again: it is too old, or its burn key outlives it. */
  ghost predicate Spent(w: World, link: Link) {
    w.now - link.at > Ttl(link.purpose) || (link in w.burned && w.burned[link] > link.at + Ttl(link.purpose))
  }

  lemma SpentIsUseless(w: World, link: Link, purpose: Purpose)
    requires Spent(w, link)
    ensures !Usable(w, link, purpose)
  {
  }

  lemma EventSpends(w: World, e: Event, link: Link)
    requires Spent(w, link)
    ensures Spent(After(w, e), link)
  {
    if e.ConfirmDeletion? && link == e.link {
      SpentIsUseless(w, link, DeleteLink);
    } else if e.ConfirmRelease? && link == e.releaseLink {
      SpentIsUseless(w, link, ReleaseLink);
    }
  }

  lemma {:induction false} SpentStaysSpent(w: World, events: seq<Event>, link: Link)
    requires Spent(w, link)
    ensures Spent(Play(w, events), link)
  {
    if events != [] {
      SpentStaysSpent(w, events[..|events| - 1], link);
      EventSpends(Play(w, events[..|events| - 1]), events[|events| - 1], link);
    }
  }

  /** A delete or release link burned after the second it was signed in is never accepted again, in any continuation. */
  lemma LinkIsSingleUse(w: World, link: Link, lessonsInFlight: bool, events: seq<Event>)
    requires Inv(w) && link.at < w.now
    ensures Usable(w, link, DeleteLink) ==> !Usable(Play(After(w, ConfirmDeletion(link, lessonsInFlight)), events), link, DeleteLink)
    ensures Usable(w, link, ReleaseLink) ==> !Usable(Play(After(w, ConfirmRelease(link)), events), link, ReleaseLink)
  {
    if Usable(w, link, DeleteLink) {
      SpentStaysSpent(After(w, ConfirmDeletion(link, lessonsInFlight)), events, link);
      SpentIsUseless(Play(After(w, ConfirmDeletion(link, lessonsInFlight)), events), link, DeleteLink);
    }
    if Usable(w, link, ReleaseLink) {
      SpentStaysSpent(After(w, ConfirmRelease(link)), events, link);
      SpentIsUseless(Play(After(w, ConfirmRelease(link)), events), link, ReleaseLink);
    }
  }

  /** Burned in its own second, the key and the link run out together, and the link is accepted once more in that second. */
  lemma SecondUseIff(w: World, link: Link, lessonsInFlight: bool, seconds: nat)
    requires Inv(w)
    ensures Usable(w, link, DeleteLink) ==>
              (Usable(After(After(w, ConfirmDeletion(link, lessonsInFlight)), Tick(seconds)), link, DeleteLink) <==>
               link.at == w.now && seconds == 1800)
    ensures Usable(w, link, ReleaseLink) ==>
              (Usable(After(After(w, ConfirmRelease(link)), Tick(seconds)), link, ReleaseLink) <==>
               link.at == w.now && seconds == 86400)
  {
    if Usable(w, link, ReleaseLink) {
      BurnedUntil(w, link, ReleaseLink, After(After(w, ConfirmRelease(link)), Tick(seconds)), seconds);
    }
    if Usable(w, link, DeleteLink) {
      BurnedUntil(w, link, DeleteLink, After(After(w, ConfirmDeletion(link, lessonsInFlight)), Tick(seconds)), seconds);
    }
  }

  lemma BurnedUntil(w: World, link: Link, purpose: Purpose, v: World, seconds: nat)
    requires Inv(w) && Usable(w, link, purpose)
    requires v.now == w.now + seconds && link in v.links && link in v.burned && v.burned[link] == w.now + Ttl(purpose)
    ensures Usable(v, link, purpose) <==> link.at == w.now && seconds == Ttl(purpose)
  {
  }

  /** A release link that has anonymized a row changes no row ever again, however often it is accepted. */
  lemma ReleaseTakesEffectOnce(w: World, link: Link, events: seq<Event>)
    requires Inv(w) && After(w, ConfirmRelease(link)).users != w.users
    ensures var v := Play(After(w, ConfirmRelease(link)), events);
            After(v, ConfirmRelease(link)).users == v.users
  {
    EventKeepsInv(w, ConfirmRelease(link));
    AnonymizedForever(After(w, ConfirmRelease(link)), events, link.uid);
  }

  /** With a restore in between, that second use deletes the account again. */
  lemma DeletedTwice(w: World, link: Link)
    requires Inv(w) && Usable(w, link, DeleteLink) && Present(w, link.uid) && link.at == w.now && !w.users[link.uid].anonymized
    ensures var v := After(After(After(w, ConfirmDeletion(link, false)), RestoreByPassword(link.uid, true)), Tick(1800));
            Present(v, link.uid) && !Present(After(v, ConfirmDeletion(link, false)), link.uid)
  {
    var deleted := After(w, ConfirmDeletion(link, false));
    assert Restorable(deleted, link.uid);
    var restored := After(deleted, RestoreByPassword(link.uid, true));
    assert Present(restored, link.uid) && restored.burned == deleted.burned && restored.links == deleted.links;
    var v := After(restored, Tick(1800));
    assert Usable(v, link, DeleteLink);
  }

  /** Delete links of one user are signed at least a cooldown apart, so no two of them are the same link. */
  lemma DeleteLinksAreApart(w: World, events: seq<Event>, uid: Uid, link: Link)
    requires Inv(w) && link in Play(w, events).links && link.purpose == DeleteLink && link.uid == uid
    ensures var v := Play(w, events);
            Link(DeleteLink, uid, v.now) in After(v, RequestDeletion(uid, false)).links && Link(DeleteLink, uid, v.now) !in v.links ==>
              link.at + 60 <= v.now
  {
    InvInEveryRun(w, events);
  }

  // ----- what each event does, column by column -----

  /** The link was mailed, is in time and is not burned. */
  predicate Good(w: World, link: Link, purpose: Purpose, lifetime: int) {
    && link in w.links && link.purpose == purpose && w.now - link.at <= lifetime
    && !(link in w.burned && w.now < w.burned[link])
  }

  predicate Deletes(w: World, e: Event, uid: Uid) {
    && e.ConfirmDeletion? && e.link.uid == uid && Good(w, e.link, DeleteLink, 30 * 60) && !e.lessonsInFlight
    && uid in w.users && w.users[uid].deletedAt.None?
  }

  predicate Restores(w: World, e: Event, uid: Uid) {
    && ((e.RestoreByPassword? && e.owner == uid && e.verified)
        || (e.RestoreByLink? && e.restoreLink.uid == uid && e.restoreLink in w.links && e.restoreLink.purpose == RestoreLink
            && w.now - e.restoreLink.at <= 30 * DAY))
    && uid in w.users && w.users[uid].deletedAt.Some? && !w.users[uid].anonymized && w.now < w.users[uid].deletedAt.value + 30 * DAY
  }

  /** An early release of the address, or a purge of a row that carries learning data. */
  predicate Anonymizes(w: World, e: Event, uid: Uid) {
    && uid in w.users && w.users[uid].deletedAt.Some? && !w.users[uid].anonymized
    && ((e.ConfirmRelease? && e.releaseLink.uid == uid && Good(w, e.releaseLink, ReleaseLink, DAY))
        || (e == Purge(uid, true) && w.users[uid].deletedAt.value < w.now - 30 * DAY))
  }

  /** What becomes of a row: only a purge that finds no learning data, after the window, removes it. */
  lemma RowSteps(w: World, e: Event, uid: Uid)
    requires uid in w.users && uid < w.nextId
    ensures var v, row := After(w, e), w.users[uid];
            && (uid !in v.users <==> e == Purge(uid, false) && row.deletedAt.Some? && row.deletedAt.value < w.now - 30 * DAY)
            && (uid in v.users ==>
                  v.users[uid] == User(if Deletes(w, e, uid) then Some(w.now) else if Restores(w, e, uid) then None else row.deletedAt,
                                       if Deletes(w, e, uid) || Anonymizes(w, e, uid) then false else row.active || Restores(w, e, uid),
                                       row.anonymized || Anonymizes(w, e, uid), row.personal && !Anonymizes(w, e, uid)))
  {
  }

  /** A row comes into being by registration only, live and with its data. */
  lemma RowBegins(w: World, e: Event, uid: Uid)
    requires uid !in w.users
    ensures uid in After(w, e).users <==> e == Register && uid == w.nextId
    ensures uid in After(w, e).users ==> After(w, e).users[uid] == User(None, true, false, true)
    ensures After(w, e).nextId == w.nextId + (if e == Register then 1 else 0) && After(w, e).now == w.now + if e.Tick? then e.seconds else 0
  {
  }

  /** Which link an event mails: a deletion link to a user outside the cooldown, a restore link with a deletion, a release link
      while a deleted account can still be restored. */
  lemma MailSteps(w: World, e: Event, link: Link)
    ensures link in After(w, e).links <==>
            || link in w.links
            || (link.at == w.now
                && match link.purpose
                   case DeleteLink =>
                     && e == RequestDeletion(link.uid, false) && link.uid in w.users && w.users[link.uid].deletedAt.None?
                     && !(link.uid in w.cooldown && w.now < w.cooldown[link.uid])
                   case RestoreLink => Deletes(w, e, link.uid)
                   case ReleaseLink =>
                     && e == RequestRelease(link.uid) && link.uid in w.users && w.users[link.uid].deletedAt.Some?
                     && !w.users[link.uid].anonymized && w.now < w.users[link.uid].deletedAt.value + 30 * DAY)
  {
  }

  /** A good link that is followed is burned, whatever else the request then does, for as long as such a link lives. */
  lemma BurnSteps(w: World, e: Event, link: Link)
    ensures var v := After(w, e);
            if (e.ConfirmDeletion? && e.link == link && Good(w, link, DeleteLink, 30 * 60)) then
              link in v.burned && v.burned[link] == w.now + 30 * 60
            else if (e.ConfirmRelease? && e.releaseLink == link && Good(w, link, ReleaseLink, DAY)) then
              link in v.burned && v.burned[link] == w.now + DAY
            else (link in v.burned <==> link in w.burned) && (link in w.burned ==> v.burned[link] == w.burned[link])
    ensures forall uid: Uid ::
              var v := After(w, e);
              var mailed := e == RequestDeletion(uid, false) && uid in w.users && w.users[uid].deletedAt.None?
                            && !(uid in w.cooldown && w.now < w.cooldown[uid]);
              && (uid in v.cooldown <==> uid in w.cooldown || mailed)
              && (uid in v.cooldown ==> v.cooldown[uid] == if mailed then w.now + 60 else w.cooldown[uid])
  {
  }

  /** Over every run a row with coursework is never removed: one goes only by a purge that found none, after its window. */
  lemma {:induction false} CourseworkIsKept(w: World, events: seq<Event>, uid: Uid)
    requires Inv(w) && uid in w.users && forall k :: 0 <= k < |events| ==> events[k] != Purge(uid, false)
    ensures uid in Play(w, events).users
  {
    if events != [] {
      var front, e := events[..|events| - 1], events[|events| - 1];
      assert forall k :: 0 <= k < |front| ==> front[k] == events[k];
      CourseworkIsKept(w, front, uid);
      InvInEveryRun(w, front);
      RowSteps(Play(w, front), e, uid);
    }
  }
}
