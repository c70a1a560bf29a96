/** services/account_service.py over the database and Redis: each method is proved against its event of AccountLifecycle. */
module AccountService {
  import opened Common
  import opened AccountLifecycle
  import opened AccountRaces

  class Accounts {
    var now: int
    var users: map<Uid, User>
    var nextId: Uid
    var burned: map<Link, int>
    var cooldown: map<Uid, int>
    ghost var links: set<Link>

    constructor (now: int)
      ensures Inv(State()) && users == map[] && this.now == now
    {
      this.now, users, nextId, burned, cooldown, links := now, map[], 0, map[], map[], {};
    }

    ghost function State(): World
      reads this
    {
      World(now, users, nextId, burned, cooldown, links)
    }

    method RequestAccountDeletion(uid: Uid, lessonsInFlight: bool) returns (mailed: Option<Link>)
      requires Present(State(), uid)
      modifies this`cooldown, this`links
      ensures State() == After(old(State()), RequestDeletion(uid, lessonsInFlight))
      ensures mailed.Some? <==> !lessonsInFlight && !CoolingDown(old(State()), uid)
      ensures mailed.Some? ==> mailed.value in links && mailed.value == Link(DeleteLink, uid, now)
    {
      if lessonsInFlight {
        return None;
      }
      if uid in cooldown && now < cooldown[uid] {
        return None;
      }
      var link := Link(DeleteLink, uid, now);
      links := links + {link};
      cooldown := cooldown[uid := now + ACCOUNT_DELETE_COOLDOWN_SECONDS];
      return Some(link);
    }

    /** `genuine` is the verdict of the signature check: exactly the links signed here pass it. */
    method BurnLink(link: Link, genuine: bool, purpose: Purpose) returns (ok: bool)
      requires genuine <==> link in links && link.purpose == purpose
      modifies this`burned
      ensures ok <==> Usable(old(State()), link, purpose)
      ensures State() == if ok then Burn(old(State()), link) else old(State())
    {
      if !genuine || now - link.at > Ttl(purpose) {
        return false;
      }
      if link in burned && now < burned[link] {
        return false;
      }
      burned := burned[link := now + Ttl(purpose)];
      return true;
    }

    method ConfirmAccountDeletion(link: Link, genuine: bool, lessonsInFlight: bool) returns (ok: bool)
      requires genuine <==> link in links && link.purpose == DeleteLink
      modifies this`burned, this`users, this`links
      ensures State() == After(old(State()), ConfirmDeletion(link, lessonsInFlight))
      ensures ok <==> Usable(old(State()), link, DeleteLink) && Present(old(State()), link.uid) && !lessonsInFlight
    {
      ok := BurnLink(link, genuine, DeleteLink);
      if !ok || link.uid !in users || users[link.uid].deletedAt.Some? || lessonsInFlight {
        return false;
      }
      users := users[link.uid := users[link.uid].(deletedAt := Some(now), active := false)];
      links := links + {Link(RestoreLink, link.uid, now)};
    }

    method RestoreAccount(uid: Uid, proven: bool) returns (ok: bool)
      modifies this`users
      ensures State() == After(old(State()), RestoreByPassword(uid, proven))
      ensures ok <==> proven && Restorable(old(State()), uid)
    {
      var seen := ReadToRestore(uid, proven);
      if seen.None? {
        return false;
      }
      CommitUser(Restoring(uid, seen.value));
      return true;
    }

    method ReadToRestore(uid: Uid, proven: bool) returns (seen: Option<User>)
      ensures seen.Some? <==> proven && Restorable(State(), uid)
      ensures seen.Some? ==> seen.value == users[uid]
    {
      if !proven || uid !in users {
        return None;
      }
      var user := users[uid];
      if user.deletedAt.None? || user.anonymized {
        return None;
      }
      if now >= user.deletedAt.value + WINDOW {
        return None;
      }
      return Some(user);
    }

    /** The commit of a request that read the row earlier, column by column. */
    method CommitUser(request: Pending)
      modifies this`users
      ensures State() == Committed(old(State()), request)
    {
      if request.uid in users {
        var row, seen, mine := users[request.uid], request.seen, Mine(request);
        if mine.deletedAt != seen.deletedAt {
          row := row.(deletedAt := mine.deletedAt);
        }
        if mine.active != seen.active {
          row := row.(active := mine.active);
        }
        if mine.anonymized != seen.anonymized {
          row := row.(anonymized := mine.anonymized);
        }
        if mine.personal != seen.personal {
          row := row.(personal := mine.personal);
        }
        users := users[request.uid := row];
      }
    }

    method RestoreAccountByLink(link: Link, genuine: bool) returns (ok: bool)
      requires genuine <==> link in links && link.purpose == RestoreLink
      modifies this`users
      ensures State() == After(old(State()), RestoreByLink(link))
    {
      ok := RestoreAccount(link.uid, genuine && now - link.at <= ACCOUNT_RESTORE_TTL_SECONDS);
    }

    method AnonymizeUserFields(uid: Uid)
      requires uid in users
      modifies this`users
      ensures users == old(users)[uid := Anonymized(old(users)[uid])]
    {
      var user := users[uid];
      user := user.(anonymized := true);
      user := user.(personal := false);
      user := user.(active := false);
      users := users[uid := user];
    }

    method ConfirmEmailRelease(link: Link, genuine: bool) returns (ok: bool)
      requires genuine <==> link in links && link.purpose == ReleaseLink
      modifies this`burned, this`users
      ensures State() == After(old(State()), ConfirmRelease(link))
    {
      ok := BurnLink(link, genuine, ReleaseLink);
      if !ok || link.uid !in users || users[link.uid].deletedAt.None? {
        return false;
      }
      if !users[link.uid].anonymized {
        AnonymizeUserFields(link.uid);
      }
    }

    /** purge_soft_deleted over the rows the scan returned, each with whether it carries learning data. */
    method PurgeUsers(scanned: seq<(Uid, bool)>)
      modifies this`users
      ensures State() == Play(old(State()), PurgeEvents(scanned))
    {
      for i := 0 to |scanned|
        invariant State() == Play(old(State()), PurgeEvents(scanned[..i]))
      {
        PurgeSnoc(old(State()), scanned[..i], scanned[i]);
        assert scanned[..i + 1] == scanned[..i] + [scanned[i]];
        PurgeUser(scanned[i].0, scanned[i].1);
      }
      assert scanned[..|scanned|] == scanned;
    }

    method PurgeUser(uid: Uid, learningData: bool)
      modifies this`users
      ensures State() == After(old(State()), AccountLifecycle.Purge(uid, learningData))
    {
      if uid in users && users[uid].deletedAt.Some? && users[uid].deletedAt.value < now - WINDOW {
        if learningData {
          if !users[uid].anonymized {
            AnonymizeUserFields(uid);
          }
        } else {
          users := users - {uid};
        }
      }
    }
  }

  lemma PurgeSnoc(w: World, front: seq<(Uid, bool)>, last: (Uid, bool))
    ensures Play(w, PurgeEvents(front + [last])) == After(Play(w, PurgeEvents(front)), AccountLifecycle.Purge(last.0, last.1))
  {
    var events, event := PurgeEvents(front), AccountLifecycle.Purge(last.0, last.1);
    assert (front + [last])[..|front|] == front;
    assert (events + [event])[..|events|] == events;
  }

  function PurgeEvents(scanned: seq<(Uid, bool)>): seq<Event> {
    if scanned == [] then []
    else PurgeEvents(scanned[..|scanned| - 1]) + [AccountLifecycle.Purge(scanned[|scanned| - 1].0, scanned[|scanned| - 1].1)]
  }
}
