/** services/auth_service.py: the service methods over Redis, each proved against its step of Sessions; and the SCAN loop of
    logout_all_sessions with any other requests served between its calls. */
module AuthService {
  import opened Common
  import opened Sessions

  /** One turn of the SCAN loop: the requests served before the call, the keys it returned, and the requests served between
      the call and the deletion of these keys. */
  datatype Round = Round(before: seq<Event>, batch: seq<Key>, between: seq<Event>)

  /** delete(*keys) drops the keys as so many logouts would. */
  function Logouts(batch: seq<Key>): seq<Event> {
    if batch == [] then [] else Logouts(batch[..|batch| - 1]) + [Logout(batch[|batch| - 1].0, batch[|batch| - 1].1)]
  }

  /** Everything that happens during the scan, in order. */
  function ScanEvents(rounds: seq<Round>): seq<Event> {
    if rounds == [] then []
    else
      var last := rounds[|rounds| - 1];
      ScanEvents(rounds[..|rounds| - 1]) + last.before + last.between + Logouts(last.batch)
  }

  predicate ReturnedIn(rounds: seq<Round>, key: Key) {
    exists i :: 0 <= i < |rounds| && key in rounds[i].batch
  }

  /** At some moment of these events Redis does not hold the key. */
  ghost predicate GoneIn(s: Store, events: seq<Event>, key: Key) {
    exists k :: 0 <= k <= |events| && !Live(Play(s, events[..k]), key)
  }

  /** SCAN's own promises: MATCH returns keys of the pattern only, and a key that is there all along is returned by some call.
      An overwritten key is there all along. */
  ghost predicate ScanKeepsPromise(s: Store, rounds: seq<Round>, user: User) {
    && (forall i, key :: 0 <= i < |rounds| && key in rounds[i].batch ==> key.0 == user)
    && (forall family :: family in s.logins && s.logins[family].0 == user ==>
          ReturnedIn(rounds, (user, family)) || GoneIn(s, ScanEvents(rounds), (user, family)))
  }

  // ----- runs in pieces -----

  lemma PlaySnoc(s: Store, events: seq<Event>, e: Event)
    ensures Play(s, events + [e]) == After(Play(s, events), e)
  {
    assert (events + [e])[..|events|] == events;
  }

  lemma {:induction false} PlayTogether(s: Store, first: seq<Event>, second: seq<Event>)
    ensures Play(s, first + second) == Play(Play(s, first), second)
  {
    if second == [] {
      assert first + second == first;
    } else {
      var front, last := second[..|second| - 1], second[|second| - 1];
      assert second == front + [last] && first + second == first + front + [last];
      PlayTogether(s, first, front);
      PlaySnoc(s, first + front, last);
      PlaySnoc(Play(s, first), front, last);
    }
  }

  function DropAll(s: Store, batch: seq<Key>): Store {
    s.(records := s.records - (set key | key in batch))
  }

  lemma DropOneMore(s: Store, front: seq<Key>, last: Key)
    ensures DropAll(s, front + [last]) == Drop(DropAll(s, front), last)
  {
    assert (set key | key in front + [last]) == (set key | key in front) + {last};
    assert s.records - ((set key | key in front) + {last}) == s.records - (set key | key in front) - {last};
  }

  lemma DropNone(s: Store)
    ensures DropAll(s, []) == s
  {
    assert s.records - {} == s.records;
  }

  lemma {:induction false} LogoutsDrop(s: Store, batch: seq<Key>)
    ensures Play(s, Logouts(batch)) == DropAll(s, batch)
  {
    if batch == [] {
      DropNone(s);
    } else {
      var front, last := batch[..|batch| - 1], batch[|batch| - 1];
      LogoutsDrop(s, front);
      PlaySnoc(s, Logouts(front), Logout(last.0, last.1));
      DropOneMore(s, front, last);
      assert front + [last] == batch;
    }
  }

  // ----- what a scan does -----

  lemma GoneMeansDead(s: Store, events: seq<Event>, user: User, family: Family)
    requires Inv(s) && family in s.logins && s.logins[family].0 == user && !Live(Play(s, events), (user, family))
    ensures Inv(Play(s, events)) && Dead(Play(s, events), family)
  {
    InvInEveryRun(s, events);
  }

  /** A family that is gone at some moment is dead from then on. */
  lemma GoneIsDead(s: Store, events: seq<Event>, user: User, family: Family)
    requires Inv(s) && family in s.logins && s.logins[family].0 == user && GoneIn(s, events, (user, family))
    ensures Dead(Play(s, events), family)
  {
    var before, after := GoneMoment(s, events, (user, family));
    DeadSince(s, before, after, user, family);
  }

  lemma GoneMoment(s: Store, events: seq<Event>, key: Key) returns (before: seq<Event>, after: seq<Event>)
    requires GoneIn(s, events, key)
    ensures before + after == events && !Live(Play(s, before), key)
  {
    var k :| 0 <= k <= |events| && !Live(Play(s, events[..k]), key);
    before, after := events[..k], events[k..];
  }

  lemma DeadSince(s: Store, before: seq<Event>, after: seq<Event>, user: User, family: Family)
    requires Inv(s) && family in s.logins && s.logins[family].0 == user && !Live(Play(s, before), (user, family))
    ensures Dead(Play(s, before + after), family)
  {
    GoneMeansDead(s, before, user, family);
    DeadFamilyStaysDead(Play(s, before), family, after);
    PlayTogether(s, before, after);
  }

  lemma GoneAt(s: Store, events: seq<Event>, key: Key, k: nat)
    requires k <= |events| && !Live(Play(s, events[..k]), key)
    ensures GoneIn(s, events, key)
  {
  }

  lemma GoneAtEnd(s: Store, events: seq<Event>, key: Key)
    requires !Live(Play(s, events), key)
    ensures GoneIn(s, events, key)
  {
    assert events[..|events|] == events;
    GoneAt(s, events, key, |events|);
  }

  lemma GoneEarlier(s: Store, front: seq<Event>, events: seq<Event>, key: Key)
    requires front <= events && GoneIn(s, front, key)
    ensures GoneIn(s, events, key)
  {
    var k :| 0 <= k <= |front| && !Live(Play(s, front[..k]), key);
    assert front[..k] == events[..k];
    GoneAt(s, events, key, k);
  }

  /** The keys of the last batch are gone when it has been deleted. */
  lemma BatchIsGone(s: Store, served: seq<Event>, batch: seq<Key>, key: Key)
    requires key in batch
    ensures GoneIn(s, served + Logouts(batch), key)
  {
    PlayTogether(s, served, Logouts(batch));
    LogoutsDrop(Play(s, served), batch);
    GoneAtEnd(s, served + Logouts(batch), key);
  }

  lemma ReturnedEarlier(rounds: seq<Round>, key: Key)
    requires ReturnedIn(rounds, key) && key !in rounds[|rounds| - 1].batch
    ensures ReturnedIn(rounds[..|rounds| - 1], key)
  {
    var i :| 0 <= i < |rounds| && key in rounds[i].batch;
    assert rounds[..|rounds| - 1][i] == rounds[i];
  }

  /** A returned key is deleted, so it is gone at that moment at the latest, whoever wrote it meanwhile. */
  lemma {:induction false} ReturnedIsGone(s: Store, rounds: seq<Round>, key: Key)
    requires ReturnedIn(rounds, key)
    ensures GoneIn(s, ScanEvents(rounds), key)
  {
    var front, last := rounds[..|rounds| - 1], rounds[|rounds| - 1];
    var earlier := ScanEvents(front);
    if key in last.batch {
      BatchIsGone(s, earlier + last.before + last.between, last.batch, key);
    } else {
      ReturnedEarlier(rounds, key);
      ReturnedIsGone(s, front, key);
      var events := earlier + last.before + last.between + Logouts(last.batch);
      assert earlier <= events;
      GoneEarlier(s, earlier, events, key);
    }
  }

  /** Whatever requests are served during the scan, refreshes that overwrite the keys included: every family that was logged
      in before it is dead after it. */
  lemma ScanEndsFamily(s: Store, rounds: seq<Round>, user: User, family: Family)
    requires Inv(s) && ScanKeepsPromise(s, rounds, user) && family in s.logins && s.logins[family].0 == user
    ensures Dead(Play(s, ScanEvents(rounds)), family)
  {
    if ReturnedIn(rounds, (user, family)) {
      ReturnedIsGone(s, rounds, (user, family));
    }
    GoneIsDead(s, ScanEvents(rounds), user, family);
  }

  /** So no refresh token minted before logout_all_sessions began is accepted after it, in any continuation, and the families
      of the user that remain were logged in during the scan. */
  lemma ScanEndsEverySession(s: Store, rounds: seq<Round>, user: User, later: seq<Event>, token: Token, family: Family)
    requires Inv(s) && ScanKeepsPromise(s, rounds, user) && token in s.minted && token.sub == user
    ensures !Accepted(Play(Play(s, ScanEvents(rounds)), later), token)
    ensures Live(Play(s, ScanEvents(rounds)), (user, family)) ==> family !in s.logins
  {
    assert TokenSound(s, token);
    InvInEveryRun(s, ScanEvents(rounds));
    ScanEndsFamily(s, rounds, user, token.family);
    DeadFamilyStaysDead(Play(s, ScanEvents(rounds)), token.family, later);
    if family in s.logins && Live(Play(s, ScanEvents(rounds)), (user, family)) {
      LiveHasOwner(s, ScanEvents(rounds), user, family);
      ScanEndsFamily(s, rounds, user, family);
      assert false;
    }
  }

  lemma LiveHasOwner(s: Store, events: seq<Event>, user: User, family: Family)
    requires Inv(s) && family in s.logins && Live(Play(s, events), (user, family))
    ensures s.logins[family].0 == user
  {
    InvInEveryRun(s, events);
    assert RecordSound(Play(s, events), (user, family));
  }

  /** The deletions of a scan leave every other user's record as it is. */
  lemma ScanSparesOthers(s: Store, batch: seq<Key>, user: User, key: Key)
    requires (forall k :: k in batch ==> k.0 == user) && key.0 != user
    ensures key in Play(s, Logouts(batch)).records <==> key in s.records
    ensures key in s.records ==> Play(s, Logouts(batch)).records[key] == s.records[key]
  {
    LogoutsDrop(s, batch);
  }

  predicate Quiet(rounds: seq<Round>) {
    forall i :: 0 <= i < |rounds| ==> rounds[i].before == [] && rounds[i].between == []
  }

  /** `v` is `s` without some records of the user. */
  ghost predicate Trimmed(s: Store, v: Store, user: User) {
    && v == s.(records := v.records) && v.records.Keys <= s.records.Keys
    && (forall key :: key in v.records ==> v.records[key] == s.records[key])
    && (forall key :: key in s.records && key.0 != user ==> key in v.records)
  }

  lemma BatchTrims(s: Store, v: Store, user: User, batch: seq<Key>)
    requires Trimmed(s, v, user) && forall key :: key in batch ==> key.0 == user
    ensures Trimmed(s, DropAll(v, batch), user)
  {
  }

  lemma {:induction false} QuietScanTrims(s: Store, rounds: seq<Round>, user: User)
    requires Quiet(rounds) && forall i, key :: 0 <= i < |rounds| && key in rounds[i].batch ==> key.0 == user
    ensures Trimmed(s, Play(s, ScanEvents(rounds)), user)
  {
    if rounds != [] {
      var front, last := rounds[..|rounds| - 1], rounds[|rounds| - 1];
      assert forall i :: 0 <= i < |front| ==> front[i] == rounds[i];
      QuietScanTrims(s, front, user);
      QuietRound(s, front, last);
      BatchTrims(s, Play(s, ScanEvents(front)), user, last.batch);
      assert rounds == front + [last];
    }
  }

  lemma QuietRound(s: Store, front: seq<Round>, last: Round)
    requires last.before == [] && last.between == []
    ensures Play(s, ScanEvents(front + [last])) == DropAll(Play(s, ScanEvents(front)), last.batch)
  {
    assert (front + [last])[..|front|] == front;
    assert ScanEvents(front + [last]) == ScanEvents(front) + Logouts(last.batch);
    PlayTogether(s, ScanEvents(front), Logouts(last.batch));
    LogoutsDrop(Play(s, ScanEvents(front)), last.batch);
  }

  /** With nobody else served, the scan changes nothing but records of the user, and leaves none of them live: the wipe. */
  lemma QuietScanIsWipe(s: Store, rounds: seq<Round>, user: User)
    requires Quiet(rounds) && forall i, key :: 0 <= i < |rounds| && key in rounds[i].batch ==> key.0 == user
    ensures Trimmed(s, Play(s, ScanEvents(rounds)), user)
    ensures Inv(s) && ScanKeepsPromise(s, rounds, user) ==>
              forall family :: !Live(Play(s, ScanEvents(rounds)), (user, family))
  {
    QuietScanTrims(s, rounds, user);
    if Inv(s) && ScanKeepsPromise(s, rounds, user) {
      forall family ensures !Live(Play(s, ScanEvents(rounds)), (user, family)) {
        QuietFamily(s, rounds, user, family);
      }
    }
  }

  lemma QuietFamily(s: Store, rounds: seq<Round>, user: User, family: Family)
    requires Inv(s) && ScanKeepsPromise(s, rounds, user)
    requires Trimmed(s, Play(s, ScanEvents(rounds)), user)
    ensures !Live(Play(s, ScanEvents(rounds)), (user, family))
  {
    if (user, family) in s.records {
      assert RecordSound(s, (user, family));
      ScanEndsFamily(s, rounds, user, family);
    }
  }

  // ----- password changes -----

  lemma PasswordKeepsInv(s: Store, user: User, hash: nat)
    requires Inv(s)
    ensures Inv(s.(passwords := s.passwords[user := hash]))
  {
    FewerRecordsKeepInv(s, s.(passwords := s.passwords[user := hash]));
  }

  /** No served request sets this user's password. */
  predicate PasswordAlone(events: seq<Event>, user: User) {
    forall i :: 0 <= i < |events| ==>
      !(events[i].ResetPassword? && events[i].user == user) && !(events[i].ChangePassword? && events[i].user == user)
  }

  lemma {:induction false} PasswordStays(s: Store, events: seq<Event>, user: User)
    requires PasswordAlone(events, user)
    ensures PasswordOf(Play(s, events), user) == PasswordOf(s, user)
  {
    if events != [] {
      var front, e := events[..|events| - 1], events[|events| - 1];
      assert forall i :: 0 <= i < |front| ==> front[i] == events[i];
      PasswordStays(s, front, user);
      PasswordSteps(Play(s, front), e, user);
    }
  }

  /** The passwords of other users do not depend on this one's. */
  lemma {:induction false} OthersPasswords(s: Store, t: Store, events: seq<Event>, user: User, other: User)
    requires PasswordOf(s, other) == PasswordOf(t, other) && other != user
    ensures PasswordOf(Play(s, events), other) == PasswordOf(Play(t, events), other)
  {
    if events != [] {
      var front, e := events[..|events| - 1], events[|events| - 1];
      OthersPasswords(s, t, front, user, other);
      PasswordSteps(Play(s, front), e, other);
      PasswordSteps(Play(t, front), e, other);
    }
  }

  lemma {:induction false} LogoutsAlone(batch: seq<Key>, user: User)
    ensures PasswordAlone(Logouts(batch), user)
  {
    if batch != [] {
      LogoutsAlone(batch[..|batch| - 1], user);
    }
  }

  /** Only the served requests of a scan can set a password. */
  predicate ServesNoPassword(rounds: seq<Round>, user: User) {
    forall i :: 0 <= i < |rounds| ==> PasswordAlone(rounds[i].before, user) && PasswordAlone(rounds[i].between, user)
  }

  lemma {:induction false} ScanAlone(rounds: seq<Round>, user: User)
    requires ServesNoPassword(rounds, user)
    ensures PasswordAlone(ScanEvents(rounds), user)
  {
    if rounds != [] {
      var front, last := rounds[..|rounds| - 1], rounds[|rounds| - 1];
      assert forall i :: 0 <= i < |front| ==> front[i] == rounds[i];
      ScanAlone(front, user);
      LogoutsAlone(last.batch, user);
      PasswordAloneTogether(ScanEvents(front), last.before, user);
      PasswordAloneTogether(ScanEvents(front) + last.before, last.between, user);
      PasswordAloneTogether(ScanEvents(front) + last.before + last.between, Logouts(last.batch), user);
    }
  }

  lemma PasswordAloneTogether(first: seq<Event>, second: seq<Event>, user: User)
    requires PasswordAlone(first, user) && PasswordAlone(second, user)
    ensures PasswordAlone(first + second, user)
  {
    forall i | 0 <= i < |first + second| ensures (first + second)[i] == if i < |first| then first[i] else second[i - |first|] {
    }
  }

  /** After a scan that began with a new password: it is stored, unless a served request set another one, and every other user
      has the password the served requests leave. */
  lemma NewPasswordStays(s: Store, user: User, hash: nat, rounds: seq<Round>, other: User)
    ensures var v := Play(s.(passwords := s.passwords[user := hash]), ScanEvents(rounds));
            && (ServesNoPassword(rounds, user) ==> PasswordOf(v, user) == Some(hash))
            && (other != user ==> PasswordOf(v, other) == PasswordOf(Play(s, ScanEvents(rounds)), other))
  {
    var start := s.(passwords := s.passwords[user := hash]);
    if ServesNoPassword(rounds, user) {
      ScanAlone(rounds, user);
      PasswordStays(start, ScanEvents(rounds), user);
    }
    if other != user {
      OthersPasswords(start, s, ScanEvents(rounds), user, other);
    }
  }

  /** reset_password: no refresh token minted before it began is ever accepted after it, whatever was served meanwhile. */
  lemma ResetEndsEverySession(s: Store, user: User, hash: nat, rounds: seq<Round>, later: seq<Event>, token: Token)
    requires Inv(s) && ScanKeepsPromise(s.(passwords := s.passwords[user := hash]), rounds, user) && token in s.minted && token.sub == user
    ensures !Accepted(Play(Play(s.(passwords := s.passwords[user := hash]), ScanEvents(rounds)), later), token)
  {
    PasswordKeepsInv(s, user, hash);
    ScanEndsEverySession(s.(passwords := s.passwords[user := hash]), rounds, user, later, token, token.family);
  }

  /** change_password: the same, and of the user's families only the caller's new one is live, next to such as were logged in
      while the scan ran. */
  lemma ChangeLeavesOneSession(s: Store, user: User, hash: nat, rounds: seq<Round>, later: seq<Event>, token: Token, family: Family)
    requires Inv(s) && ScanKeepsPromise(s.(passwords := s.passwords[user := hash]), rounds, user) && token in s.minted && token.sub == user
    ensures var scanned := Play(s.(passwords := s.passwords[user := hash]), ScanEvents(rounds));
            var v := IssueSession(scanned, user, true);
            && Live(v, (user, scanned.nextId))
            && (Live(v, (user, family)) && family != scanned.nextId ==> family !in s.logins && family in v.logins)
            && !Accepted(Play(v, later), token)
  {
    var start := s.(passwords := s.passwords[user := hash]);
    var scanned := Play(start, ScanEvents(rounds));
    PasswordKeepsInv(s, user, hash);
    InvInEveryRun(start, ScanEvents(rounds));
    ScanEndsEverySession(start, rounds, user, [Issue(user, true)] + later, token, family);
    PlayTogether(scanned, [Issue(user, true)], later);
    assert [Issue(user, true)][..0] == [];
    assert Play(scanned, [Issue(user, true)]) == IssueSession(scanned, user, true);
    if Live(scanned, (user, family)) {
      assert RecordSound(scanned, (user, family));
    }
  }

  class Service {
    var now: int
    var records: map<Key, Record>
    var active: set<User>
    var passwords: map<User, nat>
    var nextId: nat
    var minted: set<Token>
    ghost var logins: map<Family, (User, int)>

    constructor (now: int)
      ensures Inv(State()) && records == map[] && minted == {} && this.now == now
    {
      this.now, records, active, passwords, nextId, minted, logins := now, map[], {}, map[], 0, {}, map[];
    }

    ghost function State(): Store
      reads this
    {
      Store(now, records, active, passwords, nextId, minted, logins)
    }

    method MintPair(user: User, family: Family, createdAt: int, absolute: int, slidingDays: nat) returns (token: Token)
      modifies this`records, this`nextId, this`minted
      ensures State() == Mint(old(State()), (user, family), createdAt, absolute, slidingDays)
      ensures token == Token(user, family, old(nextId), Min(now + slidingDays * DAY, absolute))
    {
      var exp := now + slidingDays * DAY;
      if absolute < exp {
        exp := absolute;
      }
      token := Token(user, family, nextId, exp);
      var ttl := exp - now;
      if ttl < 1 {
        ttl := 1;
      }
      records := records[(user, family) := Record(nextId, createdAt, absolute, slidingDays, now + ttl)];
      nextId := nextId + 1;
      minted := minted + {token};
    }

    method IssueNewSession(user: User, remember: bool) returns (token: Token)
      modifies this`records, this`nextId, this`minted, this`logins
      ensures State() == After(old(State()), Issue(user, remember))
      ensures token in minted && token.sub == user && token.family == old(nextId)
    {
      var family := nextId;
      nextId := nextId + 1;
      logins := logins[family := (user, now)];
      var slidingDays := if remember then EXPIRE_DAYS else SESSION_DAYS;
      token := MintPair(user, family, now, now + ABSOLUTE_SECONDS, slidingDays);
    }

    /** The signature check passes exactly for the tokens minted here. */
    method RefreshSession(token: Token) returns (pair: Option<Token>)
      modifies this`records, this`nextId, this`minted
      ensures State() == After(old(State()), Refresh(token))
      ensures pair.Some? <==> Accepted(old(State()), token)
      ensures pair.Some? ==> pair.value in minted && pair.value.family == token.family && pair.value.jti == old(nextId)
    {
      if token !in minted || now >= token.exp {
        return None;
      }
      var key := (token.sub, token.family);
      if key !in records || now >= records[key].expiresAt {
        return None;
      }
      var family := records[key];
      if family.jti != token.jti {
        records := records - {key};
        return None;
      }
      if now >= family.absolute {
        records := records - {key};
        return None;
      }
      if token.sub !in active {
        records := records - {key};
        return None;
      }
      var next := MintPair(token.sub, token.family, family.createdAt, family.absolute, family.slidingDays);
      return Some(next);
    }

    method LogoutFamily(user: User, family: Family)
      modifies this`records
      ensures State() == After(old(State()), Logout(user, family))
    {
      records := records - {(user, family)};
    }

    /** Another request, served as one step. */
    method Serve(e: Event)
      modifies this
      ensures State() == After(old(State()), e)
    {
      match e
      case Issue(user, remember) => var _ := IssueNewSession(user, remember);
      case Refresh(token) => var _ := RefreshSession(token);
      case Logout(user, family) => LogoutFamily(user, family);
      case LogoutAll(user) => DropAll(user);
      case ResetPassword(user, hash) =>
        passwords := passwords[user := hash];
        DropAll(user);
      case ChangePassword(user, matches, hash) =>
        if user in passwords && matches {
          passwords := passwords[user := hash];
          DropAll(user);
          var _ := IssueNewSession(user, true);
        }
      case SetActive(user, value) => active := if value then active + {user} else active - {user};
      case Tick(seconds) => now := now + seconds;
    }

    method DropAll(user: User)
      modifies this`records
      ensures State() == Wipe(old(State()), user)
    {
      records := map key | key in records && key.0 != user :: records[key];
    }

    method ServeAll(events: seq<Event>)
      modifies this
      ensures State() == Play(old(State()), events)
    {
      for i := 0 to |events|
        invariant State() == Play(old(State()), events[..i])
      {
        assert events[..i + 1][..i] == events[..i];
        Serve(events[i]);
      }
      assert events[..|events|] == events;
    }

    method DeleteKeys(keys: seq<Key>)
      modifies this`records
      ensures State() == Play(old(State()), Logouts(keys))
    {
      LogoutsDrop(State(), keys);
      if keys != [] {
        records := records - (set key | key in keys);
      } else {
        assert records - (set key | key in keys) == records;
      }
    }

    /** logout_all_sessions, with the requests of `rounds` served between its calls to Redis. */
    method LogoutAllSessions(user: User, rounds: seq<Round>)
      modifies this
      ensures State() == Play(old(State()), ScanEvents(rounds))
      ensures Inv(old(State())) && ScanKeepsPromise(old(State()), rounds, user) ==>
                forall family :: family in old(logins) && old(logins)[family].0 == user ==> Dead(State(), family)
    {
      for i := 0 to |rounds|
        invariant State() == Play(old(State()), ScanEvents(rounds[..i]))
      {
        ghost var before := ScanEvents(rounds[..i]);
        assert rounds[..i + 1][..i] == rounds[..i];
        ServeAll(rounds[i].before);
        PlayTogether(old(State()), before, rounds[i].before);
        var keys := rounds[i].batch;
        ServeAll(rounds[i].between);
        PlayTogether(old(State()), before + rounds[i].before, rounds[i].between);
        DeleteKeys(keys);
        PlayTogether(old(State()), before + rounds[i].before + rounds[i].between, Logouts(keys));
      }
      assert rounds[..|rounds|] == rounds;
      if Inv(old(State())) && ScanKeepsPromise(old(State()), rounds, user) {
        forall family | family in old(logins) && old(logins)[family].0 == user ensures Dead(State(), family) {
          ScanEndsFamily(old(State()), rounds, user, family);
        }
      }
    }

    method ResetPasswordTo(user: User, hash: nat, rounds: seq<Round>)
      modifies this
      ensures State() == Play(old(State()).(passwords := old(passwords)[user := hash]), ScanEvents(rounds))
      ensures ServesNoPassword(rounds, user) ==> user in passwords && passwords[user] == hash
      ensures forall other :: other != user ==> PasswordOf(State(), other) == PasswordOf(Play(old(State()), ScanEvents(rounds)), other)
    {
      passwords := passwords[user := hash];
      LogoutAllSessions(user, rounds);
      forall other ensures other != user ==> PasswordOf(State(), other) == PasswordOf(Play(old(State()), ScanEvents(rounds)), other) {
        NewPasswordStays(old(State()), user, hash, rounds, other);
      }
      NewPasswordStays(old(State()), user, hash, rounds, user);
    }

    /** `matches` is the verdict of the password check against the stored hash. */
    method ChangePasswordTo(user: User, matches: bool, hash: nat, rounds: seq<Round>) returns (token: Option<Token>)
      modifies this
      ensures token.Some? <==> MayChange(old(State()), user, matches)
      ensures token.None? ==> State() == old(State())
      ensures token.Some? ==>
                var scanned := Play(old(State()).(passwords := old(passwords)[user := hash]), ScanEvents(rounds));
                State() == IssueSession(scanned, user, true) && token.value.family == scanned.nextId && token.value in minted
      ensures token.Some? && ServesNoPassword(rounds, user) ==> user in passwords && passwords[user] == hash
      ensures token.Some? ==>
                forall other :: other != user ==> PasswordOf(State(), other) == PasswordOf(Play(old(State()), ScanEvents(rounds)), other)
    {
      if user !in passwords || !matches {
        return None;
      }
      ResetPasswordTo(user, hash, rounds);
      ghost var scanned := State();
      var next := IssueNewSession(user, true);
      assert passwords == scanned.passwords;
      return Some(next);
    }
  }

  // ----- key names -----

  function FamilyKey(user: string, family: string): string {
    "refresh:" + user + ":" + family
  }

  /** The glob refresh:{user}:* for a user id without glob characters: a prefix test. */
  predicate Matches(user: string, key: string) {
    "refresh:" + user + ":" <= key
  }

  lemma ColonEnds(a: string, b: string, tailA: string, tailB: string)
    requires ':' !in a && ':' !in b && a + ":" + tailA == b + ":" + tailB
    ensures a == b && tailA == tailB
  {
    var left, right := a + ":" + tailA, b + ":" + tailB;
    assert left[|a|] == ':' && right[|b|] == ':';
    assert forall i :: 0 <= i < |a| ==> left[i] == a[i];
    assert forall i :: 0 <= i < |b| ==> right[i] == b[i];
    assert |a| == |b|;
    assert left[..|a|] == a && right[..|b|] == b;
    assert left[|a| + 1..] == tailA && right[|b| + 1..] == tailB;
  }

  /** Ids are UUIDs, so they hold no colon: the pattern of one user matches exactly that user's keys, and a key names one
      user and one family. */
  lemma PatternSelectsOneUser(user: string, other: string, family: string, family': string)
    requires ':' !in user && ':' !in other
    ensures Matches(user, FamilyKey(other, family)) <==> user == other
    ensures FamilyKey(user, family') == FamilyKey(other, family) <==> user == other && family' == family
  {
    var key, head := FamilyKey(other, family), "refresh:";
    assert key[|head|..] == other + ":" + family;
    assert FamilyKey(user, family')[|head|..] == user + ":" + family';
    if Matches(user, key) {
      var prefix := head + user + ":";
      assert prefix[|head|..] == user + ":";
      assert key == prefix + key[|prefix|..];
      assert key[|head|..] == user + ":" + key[|prefix|..];
      ColonEnds(user, other, key[|prefix|..], family);
    }
    if user == other {
      assert key == head + user + ":" + family;
    }
    if FamilyKey(user, family') == key {
      ColonEnds(user, other, family', family);
    }
  }
}
