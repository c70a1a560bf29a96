/** Refresh-token families (services/auth_service.py): issue, rotate, detect reuse, log out, wipe. Each request is one step,
    time is counted in whole seconds, and a token is a fact that only minting can create. */
module Sessions {
  import opened Common

  type User = nat
  type Family = nat
  type Jti = nat
  type Key = (User, Family)

  const DAY := 24 * 3600
  const ABSOLUTE_SECONDS := 90 * DAY
  const EXPIRE_DAYS := 14
  const SESSION_DAYS := 1

  datatype Token = Token(sub: User, family: Family, jti: Jti, exp: int)

  /** The JSON under refresh:{user}:{family}, and the moment Redis drops the key. */
  datatype Record = Record(jti: Jti, createdAt: int, absolute: int, slidingDays: nat, expiresAt: int)

  /** `minted` (every token ever signed) and `logins` (who started a family, and when) are history. */
  datatype Store = Store(now: int, records: map<Key, Record>, active: set<User>, passwords: map<User, nat>,
                         nextId: nat, minted: set<Token>, logins: map<Family, (User, int)>)

  datatype Event =
    | Issue(user: User, remember: bool)
    | Refresh(token: Token)
    | Logout(user: User, family: Family)
    | LogoutAll(user: User)
    | ResetPassword(user: User, hash: nat)
    | ChangePassword(user: User, matches: bool, hash: nat)
    | SetActive(user: User, value: bool)
    | Tick(seconds: nat)

  /** A key Redis still holds. */
  predicate Live(s: Store, key: Key) {
    key in s.records && s.now < s.records[key].expiresAt
  }

  function Drop(s: Store, key: Key): Store {
    s.(records := s.records - {key})
  }

  /** _mint_pair with create_refresh_token: a fresh jti, expiring at the nearer of the sliding and the absolute deadline. */
  function Mint(s: Store, key: Key, createdAt: int, absolute: int, slidingDays: nat): Store {
    var exp := Min(s.now + slidingDays * DAY, absolute);
    var ttl := Max(exp - s.now, 1);
    s.(records := s.records[key := Record(s.nextId, createdAt, absolute, slidingDays, s.now + ttl)],
       minted := s.minted + {Token(key.0, key.1, s.nextId, exp)},
       nextId := s.nextId + 1)
  }

  function IssueSession(s: Store, user: User, remember: bool): Store {
    var family := s.nextId;
    Mint(LoggedIn(s, user), (user, family), s.now,
         s.now + ABSOLUTE_SECONDS, if remember then EXPIRE_DAYS else SESSION_DAYS)
  }

  /** decode_token: signed by us and not expired; a token is invalid on and after its `exp`. */
  predicate Decodes(s: Store, token: Token) {
    token in s.minted && s.now < token.exp
  }

  predicate Accepted(s: Store, token: Token) {
    var key := (token.sub, token.family);
    && Decodes(s, token) && Live(s, key)
    && s.records[key].jti == token.jti && s.now < s.records[key].absolute
    && token.sub in s.active
  }

  function RefreshToken(s: Store, token: Token): Store {
    var key := (token.sub, token.family);
    if !Decodes(s, token) || !Live(s, key) then s
    else if !Accepted(s, token) then Drop(s, key)
    else Mint(s, key, s.records[key].createdAt, s.records[key].absolute, s.records[key].slidingDays)
  }

  function Wipe(s: Store, user: User): Store {
    s.(records := map key | key in s.records && key.0 != user :: s.records[key])
  }

  predicate MayChange(s: Store, user: User, matches: bool) {
    user in s.passwords && matches
  }

  function After(s: Store, e: Event): Store {
    match e
    case Issue(user, remember) => IssueSession(s, user, remember)
    case Refresh(token) => RefreshToken(s, token)
    case Logout(user, family) => Drop(s, (user, family))
    case LogoutAll(user) => Wipe(s, user)
    case ResetPassword(user, hash) => Wipe(s.(passwords := s.passwords[user := hash]), user)
    case ChangePassword(user, matches, hash) =>
      if MayChange(s, user, matches) then IssueSession(Wipe(s.(passwords := s.passwords[user := hash]), user), user, true) else s
    case SetActive(user, value) => s.(active := if value then s.active + {user} else s.active - {user})
    case Tick(seconds) => s.(now := s.now + seconds)
  }

  function Play(s: Store, events: seq<Event>): Store {
    if events == [] then s else After(Play(s, events[..|events| - 1]), events[|events| - 1])
  }

  // ----- invariant -----

  ghost predicate TokenSound(s: Store, t: Token) {
    && t.jti < s.nextId && t.family < s.nextId && t.family in s.logins
    && s.logins[t.family].0 == t.sub && t.exp <= s.logins[t.family].1 + ABSOLUTE_SECONDS
  }

  ghost predicate RecordSound(s: Store, key: Key)
    requires key in s.records
  {
    var r := s.records[key];
    && r.jti < s.nextId && key.1 < s.nextId && key.1 in s.logins && s.logins[key.1] == (key.0, r.createdAt)
    && r.absolute == r.createdAt + ABSOLUTE_SECONDS && r.expiresAt <= r.absolute
    && (r.slidingDays == EXPIRE_DAYS || r.slidingDays == SESSION_DAYS)
  }

  ghost predicate Inv(s: Store) {
    && (forall t :: t in s.minted ==> TokenSound(s, t))
    && (forall key :: key in s.records ==> RecordSound(s, key))
    && (forall k1, k2 :: k1 in s.records && k2 in s.records && s.records[k1].jti == s.records[k2].jti ==> k1 == k2)
    && (forall family :: family in s.logins ==> family < s.nextId && s.logins[family].1 <= s.now)
  }

  lemma MintKeepsInv(s: Store, key: Key, createdAt: int, slidingDays: nat)
    requires Inv(s) && key.1 in s.logins && s.logins[key.1] == (key.0, createdAt)
    requires s.now < createdAt + ABSOLUTE_SECONDS && (slidingDays == EXPIRE_DAYS || slidingDays == SESSION_DAYS)
    ensures Inv(Mint(s, key, createdAt, createdAt + ABSOLUTE_SECONDS, slidingDays))
  {
    var v := Mint(s, key, createdAt, createdAt + ABSOLUTE_SECONDS, slidingDays);
    forall t | t in v.minted ensures TokenSound(v, t) {
      assert t in s.minted ==> TokenSound(s, t);
    }
    forall k | k in v.records ensures RecordSound(v, k) {
      assert k in s.records ==> RecordSound(s, k);
    }
    assert forall k :: k in s.records ==> s.records[k].jti < s.nextId by {
      assert forall k :: k in s.records ==> RecordSound(s, k);
    }
  }

  /** A new family is entered in the history of logins under an unused id. */
  function LoggedIn(s: Store, user: User): Store {
    s.(nextId := s.nextId + 1, logins := s.logins[s.nextId := (user, s.now)])
  }

  lemma LoginKeepsInv(s: Store, user: User)
    requires Inv(s)
    ensures Inv(LoggedIn(s, user))
  {
    var t := LoggedIn(s, user);
    forall token | token in t.minted ensures TokenSound(t, token) {
      assert TokenSound(s, token);
    }
    forall k | k in t.records ensures RecordSound(t, k) {
      assert RecordSound(s, k);
    }
  }

  lemma IssueKeepsInv(s: Store, user: User, remember: bool)
    requires Inv(s)
    ensures Inv(IssueSession(s, user, remember))
  {
    var t, days: nat := LoggedIn(s, user), if remember then EXPIRE_DAYS else SESSION_DAYS;
    LoginKeepsInv(s, user);
    assert IssueSession(s, user, remember) == Mint(t, (user, s.nextId), s.now, s.now + ABSOLUTE_SECONDS, days);
    FreshFamily(t, user, s.nextId, s.now);
    MintKeepsInv(t, (user, s.nextId), s.now, days);
  }

  lemma FreshFamily(t: Store, user: User, family: Family, at: int)
    requires t.logins == t.logins[family := (user, at)]
    ensures family in t.logins && t.logins[family] == (user, at)
  {
  }

  lemma FewerRecordsKeepInv(s: Store, v: Store)
    requires Inv(s)
    requires v == s.(records := v.records, active := v.active, passwords := v.passwords, now := v.now) && v.now >= s.now
    requires forall k :: k in v.records ==> k in s.records && v.records[k] == s.records[k]
    ensures Inv(v)
  {
    forall t | t in v.minted ensures TokenSound(v, t) {
      assert TokenSound(s, t);
    }
    forall k | k in v.records ensures RecordSound(v, k) {
      assert RecordSound(s, k);
    }
  }

  lemma RefreshKeepsInv(s: Store, token: Token)
    requires Inv(s)
    ensures Inv(RefreshToken(s, token))
  {
    var key := (token.sub, token.family);
    if Accepted(s, token) {
      assert RecordSound(s, key);
      MintKeepsInv(s, key, s.records[key].createdAt, s.records[key].slidingDays);
    } else {
      FewerRecordsKeepInv(s, RefreshToken(s, token));
    }
  }

  lemma ChangeKeepsInv(s: Store, user: User, hash: nat)
    requires Inv(s)
    ensures Inv(IssueSession(Wipe(s.(passwords := s.passwords[user := hash]), user), user, true))
  {
    var wiped := Wipe(s.(passwords := s.passwords[user := hash]), user);
    FewerRecordsKeepInv(s, wiped);
    IssueKeepsInv(wiped, user, true);
  }

  lemma EventKeepsInv(s: Store, e: Event)
    requires Inv(s)
    ensures Inv(After(s, e))
  {
    match e
    case Issue(user, remember) => IssueKeepsInv(s, user, remember);
    case Refresh(token) => RefreshKeepsInv(s, token);
    case ChangePassword(user, matches, hash) => ChangeKeepsInv(s, user, hash);
    case _ => FewerRecordsKeepInv(s, After(s, e));
  }

  /** Time, ids and logins only grow. */
  ghost predicate Grows(s: Store, v: Store) {
    && v.now >= s.now && v.nextId >= s.nextId
    && forall family :: family in s.logins ==> family in v.logins && v.logins[family] == s.logins[family]
  }

  lemma EventGrows(s: Store, e: Event)
    requires Inv(s)
    ensures Grows(s, After(s, e))
  {
  }

  lemma {:induction false} InvInEveryRun(s: Store, events: seq<Event>)
    requires Inv(s)
    ensures Inv(Play(s, events)) && Grows(s, Play(s, events))
  {
    if events != [] {
      InvInEveryRun(s, events[..|events| - 1]);
      EventKeepsInv(Play(s, events[..|events| - 1]), events[|events| - 1]);
      EventGrows(Play(s, events[..|events| - 1]), events[|events| - 1]);
    }
  }

  // ----- histories -----

  /** A jti that no record carries any more and that can never be minted again. */
  ghost predicate Retired(s: Store, jti: Jti) {
    jti < s.nextId && forall key :: key in s.records ==> s.records[key].jti != jti
  }

  lemma MintRetires(s: Store, jti: Jti, key: Key, createdAt: int, absolute: int, slidingDays: nat)
    requires Retired(s, jti)
    ensures Retired(Mint(s, key, createdAt, absolute, slidingDays), jti)
  {
  }

  lemma IssueRetires(s: Store, jti: Jti, user: User, remember: bool)
    requires Retired(s, jti)
    ensures Retired(IssueSession(s, user, remember), jti)
  {
    MintRetires(LoggedIn(s, user), jti, (user, s.nextId), s.now, s.now + ABSOLUTE_SECONDS, if remember then EXPIRE_DAYS else SESSION_DAYS);
  }

  lemma FewerRecordsRetire(s: Store, v: Store, jti: Jti)
    requires Retired(s, jti) && v.nextId == s.nextId
    requires forall k :: k in v.records ==> k in s.records && v.records[k] == s.records[k]
    ensures Retired(v, jti)
  {
  }

  lemma EventRetires(s: Store, jti: Jti, e: Event)
    requires Retired(s, jti)
    ensures Retired(After(s, e), jti)
  {
    match e
    case Issue(user, remember) => IssueRetires(s, jti, user, remember);
    case Refresh(token) =>
      if Accepted(s, token) {
        var r := s.records[(token.sub, token.family)];
        MintRetires(s, jti, (token.sub, token.family), r.createdAt, r.absolute, r.slidingDays);
      }
    case ChangePassword(user, matches, hash) =>
      var wiped := Wipe(s.(passwords := s.passwords[user := hash]), user);
      FewerRecordsRetire(s, wiped, jti);
      IssueRetires(wiped, jti, user, true);
    case _ => FewerRecordsRetire(s, After(s, e), jti);
  }

  lemma {:induction false} RetiredStaysRetired(s: Store, jti: Jti, events: seq<Event>)
    requires Retired(s, jti)
    ensures Retired(Play(s, events), jti)
  {
    if events != [] {
      RetiredStaysRetired(s, jti, events[..|events| - 1]);
      EventRetires(Play(s, events[..|events| - 1]), jti, events[|events| - 1]);
    }
  }

  /** In every run a refresh jti is accepted at most once: after it was accepted, no continuation accepts a token with it. */
  lemma AcceptedAtMostOnce(s: Store, token: Token, events: seq<Event>, again: Token)
    requires Inv(s) && Accepted(s, token) && again.jti == token.jti
    ensures !Accepted(Play(After(s, Refresh(token)), events), again)
  {
    var rotated := After(s, Refresh(token));
    assert RecordSound(s, (token.sub, token.family));
    assert Retired(rotated, token.jti);
    RetiredStaysRetired(rotated, token.jti, events);
  }

  ghost predicate Dead(s: Store, family: Family) {
    family in s.logins && !Live(s, (s.logins[family].0, family))
  }

  lemma DeadStep(s: Store, e: Event, family: Family)
    requires Inv(s) && Dead(s, family)
    ensures Dead(After(s, e), family)
  {
    EventGrows(s, e);
  }

  lemma DeadAcceptsNothing(s: Store, family: Family, token: Token)
    requires Inv(s) && Dead(s, family) && token.family == family
    ensures !Accepted(s, token)
  {
    assert token in s.minted ==> TokenSound(s, token);
  }

  /** Once the record of a family is deleted or has expired, no token of that family is ever accepted again. */
  lemma {:induction false} DeadFamilyStaysDead(s: Store, family: Family, events: seq<Event>)
    requires Inv(s) && Dead(s, family)
    ensures Dead(Play(s, events), family)
    ensures forall token: Token :: token.family == family ==> !Accepted(Play(s, events), token)
  {
    InvInEveryRun(s, events);
    if events != [] {
      DeadFamilyStaysDead(s, family, events[..|events| - 1]);
      InvInEveryRun(s, events[..|events| - 1]);
      DeadStep(Play(s, events[..|events| - 1]), events[|events| - 1], family);
    }
    forall token: Token | token.family == family ensures !Accepted(Play(s, events), token) {
      DeadAcceptsNothing(Play(s, events), family, token);
    }
  }

  /** Presenting an unexpired token that was already rotated, while its family exists, ends the family for good. */
  lemma ReuseEndsFamily(s: Store, token: Token, events: seq<Event>, other: Token)
    requires Inv(s) && Decodes(s, token) && Live(s, (token.sub, token.family))
    requires s.records[(token.sub, token.family)].jti != token.jti && other.family == token.family
    ensures (token.sub, token.family) !in After(s, Refresh(token)).records
    ensures !Accepted(Play(After(s, Refresh(token)), events), other)
  {
    assert TokenSound(s, token);
    EventKeepsInv(s, Refresh(token));
    DeadFamilyStaysDead(After(s, Refresh(token)), token.family, events);
  }

  /** The deadline set at login is carried unchanged through every rotation: every token and record of the family expires no
      later, and nothing is accepted at or after it. */
  lemma AbsoluteDeadline(s: Store, user: User, remember: bool, events: seq<Event>)
    requires Inv(s)
    ensures var v := Play(After(s, Issue(user, remember)), events);
            var deadline := s.now + ABSOLUTE_SECONDS;
            && (forall t :: t in v.minted && t.family == s.nextId ==> t.exp <= deadline && t.sub == user)
            && ((user, s.nextId) in v.records ==>
                  v.records[(user, s.nextId)].absolute == deadline && v.records[(user, s.nextId)].expiresAt <= deadline)
            && (forall t: Token :: t.family == s.nextId && Accepted(v, t) ==> v.now < deadline)
  {
    var issued := After(s, Issue(user, remember));
    EventKeepsInv(s, Issue(user, remember));
    InvInEveryRun(issued, events);
    var v := Play(issued, events);
    assert issued.logins[s.nextId] == (user, s.now);
    forall t | t in v.minted && t.family == s.nextId ensures t.exp <= s.now + ABSOLUTE_SECONDS && t.sub == user {
      assert TokenSound(v, t);
    }
    assert (user, s.nextId) in v.records ==> RecordSound(v, (user, s.nextId));
  }

  /** No refresh of `family` is accepted anywhere in the run. */
  predicate NoRotation(s: Store, family: Family, events: seq<Event>) {
    events == [] ||
    (NoRotation(s, family, events[..|events| - 1]) &&
     (events[|events| - 1].Refresh? && events[|events| - 1].token.family == family ==>
        !Accepted(Play(s, events[..|events| - 1]), events[|events| - 1].token)))
  }

  lemma {:induction false} UnrotatedRecordIsFixed(s: Store, key: Key, events: seq<Event>)
    requires Inv(s) && key in s.records && NoRotation(s, key.1, events)
    ensures key in Play(s, events).records ==> Play(s, events).records[key] == s.records[key]
  {
    if events != [] {
      var before := Play(s, events[..|events| - 1]);
      UnrotatedRecordIsFixed(s, key, events[..|events| - 1]);
      InvInEveryRun(s, events[..|events| - 1]);
      assert RecordSound(s, key);
      if key in Play(s, events).records {
        OnlyRotationRewrites(before, events[|events| - 1], key);
      }
    }
  }

  /** A key appears only for the family an event starts, and a record changes only when its own family is rotated. */
  lemma OnlyRotationRewrites(s: Store, e: Event, key: Key)
    requires key.1 < s.nextId && key in After(s, e).records
    ensures key in s.records
    ensures After(s, e).records[key] == s.records[key] || (e.Refresh? && Accepted(s, e.token) && e.token.family == key.1)
  {
  }

  /** What holds after a mint at `now`: until the family is rotated again, nothing is accepted `slidingDays` later. */
  lemma SlidingDeadlineAt(s: Store, key: Key, days: nat, now: int, events: seq<Event>, later: Token)
    requires Inv(s) && key in s.records && s.records[key].expiresAt <= now + days * DAY
    requires later.family == key.1 && NoRotation(s, key.1, events) && Accepted(Play(s, events), later)
    ensures Play(s, events).now < now + days * DAY
  {
    InvInEveryRun(s, events);
    assert RecordSound(s, key);
    assert TokenSound(Play(s, events), later);
    UnrotatedRecordIsFixed(s, key, events);
  }

  /** Nor is anything accepted `sliding_days` after the login or the last refresh of its family. */
  lemma SlidingDeadline(s: Store, user: User, remember: bool, events: seq<Event>, later: Token)
    requires Inv(s) && later.family == s.nextId
    requires NoRotation(After(s, Issue(user, remember)), s.nextId, events)
    requires Accepted(Play(After(s, Issue(user, remember)), events), later)
    ensures Play(After(s, Issue(user, remember)), events).now < s.now + (if remember then 14 else 1) * 24 * 3600
  {
    EventKeepsInv(s, Issue(user, remember));
    SlidingDeadlineAt(After(s, Issue(user, remember)), (user, s.nextId), if remember then 14 else 1, s.now, events, later);
  }

  lemma SlidingDeadlineAfterRotation(s: Store, token: Token, events: seq<Event>, later: Token)
    requires Inv(s) && Accepted(s, token) && later.family == token.family
    requires NoRotation(After(s, Refresh(token)), token.family, events)
    requires Accepted(Play(After(s, Refresh(token)), events), later)
    ensures Play(After(s, Refresh(token)), events).now < s.now + s.records[(token.sub, token.family)].slidingDays * DAY
  {
    var key := (token.sub, token.family);
    assert RecordSound(s, key);
    EventKeepsInv(s, Refresh(token));
    SlidingDeadlineAt(After(s, Refresh(token)), key, s.records[key].slidingDays, s.now, events, later);
  }

  /** The token a login hands out works for exactly as long as its user stays active and the sliding window is open. */
  lemma LoginTokenWorksUntilDeadline(s: Store, user: User, remember: bool, seconds: nat)
    requires Inv(s)
    ensures var days := if remember then 14 else 1;
            Accepted(After(After(s, Issue(user, remember)), Tick(seconds)), Token(user, s.nextId, s.nextId + 1, s.now + days * DAY))
            <==> user in s.active && seconds < days * DAY
  {
    var issued := After(s, Issue(user, remember));
    assert issued.records[(user, s.nextId)].jti == s.nextId + 1;
  }

  /** The token a rotation hands out works until the nearer of the sliding and the absolute deadline, and no later. */
  lemma RotatedTokenWorksUntilDeadline(s: Store, held: Token, seconds: nat)
    requires Inv(s) && Accepted(s, held)
    ensures var r := s.records[(held.sub, held.family)];
            var exp := Min(s.now + r.slidingDays * DAY, r.absolute);
            Accepted(After(After(s, Refresh(held)), Tick(seconds)), Token(held.sub, held.family, s.nextId, exp))
            <==> seconds < r.slidingDays * DAY && s.now + seconds < r.absolute
  {
    var key := (held.sub, held.family);
    var r, rotated := s.records[key], After(s, Refresh(held));
    assert RecordSound(s, key);
    assert rotated == Mint(s, key, r.createdAt, r.absolute, r.slidingDays);
    assert rotated.records[key].jti == s.nextId;
  }

  /** No refresh token minted before the wipe is ever accepted after it. AuthService does the same for the real scan. */
  lemma WipeEndsEverySession(s: Store, user: User, hash: nat, events: seq<Event>, token: Token)
    requires Inv(s) && token in s.minted && token.sub == user
    ensures !Accepted(Play(After(s, ResetPassword(user, hash)), events), token)
    ensures !Accepted(Play(After(s, LogoutAll(user)), events), token)
  {
    assert TokenSound(s, token);
    EventKeepsInv(s, ResetPassword(user, hash));
    EventKeepsInv(s, LogoutAll(user));
    DeadFamilyStaysDead(After(s, ResetPassword(user, hash)), token.family, events);
    DeadFamilyStaysDead(After(s, LogoutAll(user)), token.family, events);
  }

  /** A wipe followed by a login leaves exactly one live family, the new one, and no older token works again. */
  lemma WipeLeavesOneSession(s: Store, user: User, hash: nat, events: seq<Event>, token: Token)
    requires Inv(s) && MayChange(s, user, true) && token in s.minted && token.sub == user
    ensures var v := After(s, ChangePassword(user, true, hash));
            && (forall family :: Live(v, (user, family)) <==> family == s.nextId)
            && v.passwords[user] == hash
            && !Accepted(Play(v, events), token)
  {
    assert TokenSound(s, token);
    var v := After(s, ChangePassword(user, true, hash));
    EventKeepsInv(s, ChangePassword(user, true, hash));
    DeadFamilyStaysDead(v, token.family, events);
  }

  // ----- what each request does, column by column -----

  function PasswordOf(s: Store, user: User): Option<nat> {
    if user in s.passwords then Some(s.passwords[user]) else None
  }

  /** A reset sets the password, a change does if the old one matches; nobody else's is touched. */
  lemma PasswordSteps(s: Store, e: Event, user: User)
    ensures PasswordOf(After(s, e), user) == match e
                                             case ResetPassword(u, hash) => if u == user then Some(hash) else PasswordOf(s, user)
                                             case ChangePassword(u, matches, hash) =>
                                               if u == user && user in s.passwords && matches then Some(hash) else PasswordOf(s, user)
                                             case _ => PasswordOf(s, user)
  {
  }

  /** A login, or the session a password change leaves its caller. */
  predicate LogsIn(s: Store, e: Event, key: Key) {
    && key.1 == s.nextId
    && match e
       case Issue(user, _) => key.0 == user
       case ChangePassword(user, matches, _) => key.0 == user && user in s.passwords && matches
       case _ => false
  }

  /** The token is the newest of its family, in time, and its user is active. */
  predicate Rotates(s: Store, e: Event, key: Key) {
    && e.Refresh? && (e.token.sub, e.token.family) == key && e.token in s.minted && s.now < e.token.exp
    && Live(s, key) && e.token.jti == s.records[key].jti && s.now < s.records[key].absolute && key.0 in s.active
  }

  /** Logged out, wiped, or presented with a token that is signed and in time but otherwise no good. */
  predicate Ends(s: Store, e: Event, key: Key) {
    match e
    case Logout(user, family) => key == (user, family)
    case LogoutAll(user) => key.0 == user
    case ResetPassword(user, _) => key.0 == user
    case ChangePassword(user, matches, _) => key.0 == user && user in s.passwords && matches
    case Refresh(token) =>
      && (token.sub, token.family) == key && token in s.minted && s.now < token.exp && Live(s, key)
      && (token.jti != s.records[key].jti || s.now >= s.records[key].absolute || key.0 !in s.active)
    case _ => false
  }

  /** What becomes of each record: a login opens one, a rotation renews it under the old deadline, an end deletes it, and
      nothing else touches it. */
  lemma RecordSteps(s: Store, e: Event, key: Key)
    requires Inv(s)
    ensures var v := After(s, e);
            if LogsIn(s, e, key) then
              var days := if e.Issue? && !e.remember then 1 else 14;
              key in v.records && v.records[key] == Record(s.nextId + 1, s.now, s.now + 90 * DAY, days, s.now + days * DAY)
            else if Rotates(s, e, key) then
              var before := s.records[key];
              key in v.records && v.records[key] == before.(jti := s.nextId, expiresAt := Min(s.now + before.slidingDays * DAY, before.absolute))
            else if Ends(s, e, key) then key !in v.records
            else (key in v.records <==> key in s.records) && (key in s.records ==> v.records[key] == s.records[key])
  {
    if key in s.records {
      assert RecordSound(s, key);
    }
    if e.Refresh? {
      RefreshSteps(s, e.token, key);
    }
  }

  lemma RefreshSteps(s: Store, token: Token, key: Key)
    requires Inv(s) && (key in s.records ==> RecordSound(s, key))
    ensures var v, e := RefreshToken(s, token), Refresh(token);
            if Rotates(s, e, key) then
              key in v.records
              && v.records[key] == s.records[key].(jti := s.nextId, expiresAt := Min(s.now + s.records[key].slidingDays * DAY, s.records[key].absolute))
            else if Ends(s, e, key) then key !in v.records
            else (key in v.records <==> key in s.records) && (key in s.records ==> v.records[key] == s.records[key])
  {
  }

  /** The one token a login or rotation signs. */
  lemma TokenSteps(s: Store, e: Event, t: Token)
    requires Inv(s)
    ensures t in After(s, e).minted <==>
            || t in s.minted
            || (LogsIn(s, e, (t.sub, t.family)) && t.jti == s.nextId + 1 && t.exp == s.now + (if e.Issue? && !e.remember then 1 else 14) * DAY)
            || (Rotates(s, e, (t.sub, t.family)) && t.jti == s.nextId
                && t.exp == Min(s.now + s.records[(t.sub, t.family)].slidingDays * DAY, s.records[(t.sub, t.family)].absolute))
  {
  }

  lemma UserSteps(s: Store, e: Event, user: User)
    ensures user in After(s, e).active <==> if e.SetActive? && e.user == user then e.value else user in s.active
    ensures After(s, e).now == s.now + if e.Tick? then e.seconds else 0
  {
  }

  /** A token that is signed and in time but refused, for whatever reason, ends its family for good: also a deactivated user's,
      who does not get it back when the account is active again. */
  lemma RefusalEndsFamily(s: Store, token: Token, events: seq<Event>, other: Token)
    requires Inv(s) && token in s.minted && s.now < token.exp && Live(s, (token.sub, token.family)) && !Accepted(s, token)
    requires other.family == token.family
    ensures (token.sub, token.family) !in After(s, Refresh(token)).records
    ensures !Accepted(Play(After(s, Refresh(token)), events), other)
  {
    assert TokenSound(s, token);
    EventKeepsInv(s, Refresh(token));
    RecordSteps(s, Refresh(token), (token.sub, token.family));
    DeadFamilyStaysDead(After(s, Refresh(token)), token.family, events);
  }
}
