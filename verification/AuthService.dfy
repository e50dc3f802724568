/**
  `src/modules/auth/auth.service.ts`: each request, built from the session, key, token and user services, continues a
  run of the whole system by exactly the protocol's event.
 */
module AuthServices {
  import opened Options
  import opened Uuids
  import opened SessionModel
  import opened SessionServices
  import opened KeyModel
  import opened KeyServices
  import opened Tokens
  import opened UserModel
  import opened UserServices
  import opened AuthSystem
  import opened JwtServices
  import opened MailLinks
  import opened SessionTheorems
  import opened TokenTheorems

  // ---------- The run so far ----------

  datatype History = History(states: seq<State>, events: seq<Event>)

  ghost predicate IsHistory(c: Config, h: History) {
    Run(c, h.states, h.events)
  }

  function Last(h: History): State
    requires h.states != []
  {
    h.states[|h.states| - 1]
  }

  function Then(c: Config, h: History, e: Event): (r: History)
    requires h.states != []
    ensures r.states != [] && Last(r) == Apply(c, Last(h), e)
  {
    History(h.states + [Apply(c, Last(h), e)], h.events + [e])
  }

  /** The clock is read: it shows `now`. */
  function AtTime(c: Config, h: History, now: int): (r: History)
    requires h.states != [] && Last(h).now <= now
    ensures r.states != [] && Last(r) == Last(h).(now := now)
  {
    Then(c, h, Advance(now - Last(h).now))
  }

  lemma ThenRuns(c: Config, h: History, e: Event)
    requires IsHistory(c, h) && Enabled(c, Last(h), e)
    ensures IsHistory(c, Then(c, h, e)) && Inv(Last(Then(c, h, e)))
  {
    var ss, es := Then(c, h, e).states, Then(c, h, e).events;
    forall i | 0 <= i < |es| ensures Happens(c, ss, es, i) {
      if i < |h.events| {
        assert Happens(c, h.states, h.events, i);
      }
    }
    RunKeepsInv(c, ss, es, |es|);
  }

  lemma LastKeepsInv(c: Config, h: History)
    requires IsHistory(c, h)
    ensures Inv(Last(h))
  {
    RunKeepsInv(c, h.states, h.events, |h.events|);
  }

  lemma TimeRuns(c: Config, h: History, now: int)
    requires IsHistory(c, h) && Last(h).now <= now
    ensures IsHistory(c, AtTime(c, h, now)) && Inv(Last(AtTime(c, h, now)))
  {
    ThenRuns(c, h, Advance(now - Last(h).now));
  }

  // ---------- What is stored of a session ----------

  function UserOf(id: string, row: UserRow): User {
    User(id, row.email, row.name)
  }

  /** What ending sessions does to them. */
  function Ended(m: Sessions, e: Event): Sessions
    requires e.Logout? || e.LogoutAll? || e.LogoutSessions?
  {
    match e
    case Logout(sid) => RemoveSession(m, sid)
    case LogoutAll(uid) => RemoveSessions(m, uid, IndexOf(m, uid))
    case LogoutSessions(uid, sids) => RemoveSessions(m, uid, sids)
  }

  lemma EndedIsApplied(c: Config, s: State, e: Event)
    requires e.Logout? || e.LogoutAll? || e.LogoutSessions?
    ensures Apply(c, s, e) == s.(sessions := Ended(s.sessions, e))
  {
  }

  /** A caller for whom the strategies' lookup found no active user has no id; it enters keys as text. */
  function UserIdText(userId: Option<string>): string {
    if userId.Some? then userId.value else "undefined"
  }

  function CreateUserData(client: Client, user: User, tokens: JwtResponse, d: Draw): SessionData {
    SessionData(client.ip, client.userAgent, user.id, user.email, client.os, client.browser,
                d.accessJti, tokens.accessToken.claims.exp, d.refreshJti, tokens.refreshToken.claims.exp,
                tokens.sessionId)
  }

  /** A refresh overwrites four fields of the record it read. */
  function Overwritten(data: SessionData, tokens: JwtResponse, d: Draw): SessionData {
    data.(jwtAccessId := d.accessJti, expAcc := tokens.accessToken.claims.exp,
          jwtRefreshId := d.refreshJti, expRef := tokens.refreshToken.claims.exp)
  }

  /** A signed pair and a stored session are the protocol's login. */
  lemma LoginFollows(c: Config, s: State, user: User, client: Client, d: Draw, r: JwtResponse, keys: Keys)
    requires Inv(s) && d.sid !in s.uuids && r.sessionId == d.sid
    requires SignedFrom(c, WithUuid(s, d.sid), SubjectOf(user), r, d, keys)
    ensures var e, data := AuthSystem.Login(user, client, d.sid, IdsOf(r, d)), CreateUserData(client, user, r, d);
            && Enabled(c, s, e) && Inv(Apply(c, s, e)) && Apply(c, s, e).keys == keys
            && Apply(c, s, e).sessions == StoreSession(s.sessions, data, data.sessionId, data.expRef, s.now)
  {
    var e := AuthSystem.Login(user, client, d.sid, IdsOf(r, d));
    StepKeepsInv(c, s, e);
    assert CreateUserData(client, user, r, d) == NewSessionData(c, s, user, client, d.sid, e.ids);
  }

  /** A signed pair and an overwritten record are the protocol's refresh. */
  lemma RefreshFollows(c: Config, s: State, caller: Subject, d: Draw, r: JwtResponse, keys: Keys)
    requires Inv(s) && Live(s.sessions, r.sessionId, s.now) && SignedFrom(c, s, caller, r, d, keys)
    ensures var e := RefreshTokens(r.sessionId, caller, IdsOf(r, d));
            && Enabled(c, s, e) && Inv(Apply(c, s, e)) && Apply(c, s, e).keys == keys
            && Apply(c, s, e).sessions ==
                 UpdateSession(s.sessions, Overwritten(s.sessions.records[r.sessionId].data, r, d), s.now)
  {
    var e := RefreshTokens(r.sessionId, caller, IdsOf(r, d));
    StepKeepsInv(c, s, e);
    var data := s.sessions.records[r.sessionId].data;
    assert Overwritten(data, r, d) == RefreshedData(c, s, data, e.ids);
  }

  // ---------- What the caller gets ----------

  /** The pair is issued, about `subject`, under `sid`, with the configured lifetimes, and both strategies take it. */
  ghost predicate HandedOut(c: Config, s: State, tokens: JwtResponse, subject: Subject, sid: string) {
    && Issued(RefreshKey, tokens.refreshToken) in s.issued && Issued(AccessKey, tokens.accessToken) in s.issued
    && tokens.sessionId == sid
    && tokens.refreshToken.claims.sessionId == Some(sid) && tokens.accessToken.claims.sessionId == Some(sid)
    && tokens.refreshToken.claims.subject == subject && tokens.accessToken.claims.subject == subject
    && tokens.refreshToken.claims.exp == NowSeconds(s.now) + c.refresh
    && tokens.accessToken.claims.exp == NowSeconds(s.now) + c.access
    && (c.refresh >= 2 ==> RefreshStrategyAccepts(s.keys, s.sessions, tokens.refreshToken, s.now))
    && (c.refresh >= 2 && c.access >= 1 ==> JwtStrategyAccepts(s.keys, s.sessions, tokens.accessToken, s.now))
  }

  /** The record says which pair is valid for the session, and until when. */
  predicate Remembers(data: SessionData, tokens: JwtResponse) {
    && data.sessionId == tokens.sessionId
    && tokens.refreshToken.claims.jti == Some(data.jwtRefreshId) && tokens.refreshToken.claims.exp == data.expRef
    && tokens.accessToken.claims.jti == Some(data.jwtAccessId) && tokens.accessToken.claims.exp == data.expAcc
  }

  predicate FromClient(data: SessionData, client: Client) {
    data.ip == client.ip && data.userAgent == client.userAgent && data.os == client.os && data.browser == client.browser
  }

  /** A new session of the user with this id, e-mail and name, opened from `client`. */
  ghost predicate Opened(c: Config, s: State, tokens: JwtResponse, sid: string, id: string, email: string, name: string,
                         client: Client)
  {
    && HandedOut(c, s, tokens, Subject(Some(id), Some(email), Some(name)), sid)
    && (c.refresh >= 0 ==>
          && sid in s.sessions.records
          && var data := s.sessions.records[sid].data;
          Remembers(data, tokens) && data.userId == id && data.email == email && FromClient(data, client))
  }

  /** The session goes on with a new pair, about the caller; whose it is and where it was opened from stay. */
  ghost predicate Renewed(c: Config, before: Sessions, s: State, tokens: JwtResponse, sid: string, caller: Subject) {
    && HandedOut(c, s, tokens, caller, sid)
    && (c.refresh >= 0 ==>
          && sid in before.records && sid in s.sessions.records
          && var was, data := before.records[sid].data, s.sessions.records[sid].data;
          && Remembers(data, tokens) && data.userId == was.userId && data.email == was.email
          && FromClient(data, Client(was.ip, was.userAgent, was.os, was.browser)))
  }

  lemma PairIsHandedOut(c: Config, s: State, e: Event, subject: Subject, r: JwtResponse)
    requires Inv(s) && Enabled(c, s, e) && Issues(e) && r.sessionId == e.sid
    requires r.refreshToken == IssuedRefreshToken(c, s, e) && r.accessToken == IssuedAccessToken(c, s, e)
    requires subject == if e.Login? then SubjectOf(e.user) else e.caller
    ensures HandedOut(c, Apply(c, s, e), r, subject, e.sid)
  {
    if c.refresh >= 2 {
      IssueIsAccepted(c, s, e);
    }
  }

  lemma LoginOpens(c: Config, s: State, user: User, client: Client, d: Draw, r: JwtResponse, keys: Keys)
    requires Inv(s) && d.sid !in s.uuids && r.sessionId == d.sid
    requires SignedFrom(c, WithUuid(s, d.sid), SubjectOf(user), r, d, keys)
    ensures var t := Apply(c, s, AuthSystem.Login(user, client, d.sid, IdsOf(r, d)));
            Opened(c, t, r, d.sid, user.id, user.email, user.name, client)
  {
    var e := AuthSystem.Login(user, client, d.sid, IdsOf(r, d));
    PairIsHandedOut(c, s, e, SubjectOf(user), r);
    WriteOutcome(s.sessions, d.sid, NewSessionData(c, s, user, client, d.sid, e.ids), s.now);
  }

  lemma RefreshRenews(c: Config, s: State, caller: Subject, d: Draw, r: JwtResponse, keys: Keys)
    requires Inv(s) && Live(s.sessions, r.sessionId, s.now) && SignedFrom(c, s, caller, r, d, keys)
    ensures var t := Apply(c, s, RefreshTokens(r.sessionId, caller, IdsOf(r, d)));
            Renewed(c, s.sessions, t, r, r.sessionId, caller)
  {
    var e := RefreshTokens(r.sessionId, caller, IdsOf(r, d));
    PairIsHandedOut(c, s, e, caller, r);
    WriteOutcome(s.sessions, r.sessionId, RefreshedData(c, s, s.sessions.records[r.sessionId].data, e.ids), s.now);
  }

  // ---------- What happens to the run ----------

  lemma LoginRuns(c: Config, h: History, user: User, client: Client, d: Draw, r: JwtResponse, keys: Keys)
    requires IsHistory(c, h) && d.sid !in Last(h).uuids && r.sessionId == d.sid
    requires SignedFrom(c, WithUuid(Last(h), d.sid), SubjectOf(user), r, d, keys)
    ensures var g := Then(c, h, AuthSystem.Login(user, client, d.sid, IdsOf(r, d)));
            var data := CreateUserData(client, user, r, d);
            && IsHistory(c, g) && Last(g).keys == keys
            && Last(g).sessions == StoreSession(Last(h).sessions, data, data.sessionId, data.expRef, Last(h).now)
            && Opened(c, Last(g), r, d.sid, user.id, user.email, user.name, client)
  {
    LastKeepsInv(c, h);
    LoginOpens(c, Last(h), user, client, d, r, keys);
    LoginFollows(c, Last(h), user, client, d, r, keys);
    ThenRuns(c, h, AuthSystem.Login(user, client, d.sid, IdsOf(r, d)));
  }

  lemma RefreshRuns(c: Config, h: History, caller: Subject, d: Draw, r: JwtResponse, keys: Keys)
    requires IsHistory(c, h) && Live(Last(h).sessions, r.sessionId, Last(h).now)
    requires SignedFrom(c, Last(h), caller, r, d, keys)
    ensures var g := Then(c, h, RefreshTokens(r.sessionId, caller, IdsOf(r, d)));
            && IsHistory(c, g) && Last(g).keys == keys
            && Last(g).sessions ==
                 UpdateSession(Last(h).sessions, Overwritten(Last(h).sessions.records[r.sessionId].data, r, d),
                               Last(h).now)
            && Renewed(c, Last(h).sessions, Last(g), r, r.sessionId, caller)
  {
    LastKeepsInv(c, h);
    RefreshRenews(c, Last(h), caller, d, r, keys);
    RefreshFollows(c, Last(h), caller, d, r, keys);
    ThenRuns(c, h, RefreshTokens(r.sessionId, caller, IdsOf(r, d)));
  }

  class AuthService {
    const jwtService: JwtServiceLocal
    const sessionService: SessionService
    const userService: UserService
    ghost var history: History

    /** The key table and the session store are those that `history`, a run of the whole system, ends in. */
    ghost predicate Valid()
      reads this, jwtService.keyService, sessionService, sessionService.cacheService, userService
    {
      && sessionService.Valid() && userService.Valid()
      && IsHistory(jwtService.config, history)
      && Last(history).keys == jwtService.keyService.rows
      && Last(history).sessions == sessionService.model
      && forall id | id in userService.rows :: IsUuid(id)
    }

    constructor (jwtService: JwtServiceLocal, sessionService: SessionService, userService: UserService, now: int)
      requires jwtService.keyService.rows == map[]
      requires sessionService.Valid() && sessionService.model == Sessions(map[], map[])
      requires userService.Valid() && forall id | id in userService.rows :: IsUuid(id)
      ensures this.jwtService == jwtService && this.sessionService == sessionService && this.userService == userService
      ensures Valid() && history.events == [] && Last(history).now == now
    {
      this.jwtService, this.sessionService, this.userService := jwtService, sessionService, userService;
      this.history := History([State(now, map[], Sessions(map[], map[]), {}, {})], []);
    }

    // ---------- Requests that open or renew a session ----------

    /** The common end of login, e-mail verification and password reset: sign a pair and store a new session. */
    method OpenSession(user: User, client: Client, d: Draw, now: int) returns (r: Outcome<JwtResponse>)
      requires Valid() && Last(history).now <= now
      requires IsFresh(d, Last(history).uuids) && IsUuid(d.sid) && IsUuid(user.id)
      modifies this, jwtService.keyService, sessionService, sessionService.cacheService
      ensures Valid()
      ensures r.Thrown? <==> CannotSignPair(old(jwtService.keyService.rows), d)
      ensures r.Thrown? ==> SigningFailed(old(history), d, now)
      ensures r.Returned? ==> LoggedIn(old(history), user, client, d, r.value, now)
      ensures r.Returned? ==>
                Opened(jwtService.config, Last(history), r.value, d.sid, user.id, user.email, user.name, client)
    {
      var c := jwtService.config;
      ghost var h := AtTime(c, history, now);
      TimeRuns(c, history, now);
      var tokens := jwtService.SignTokens(SubjectOf(user), None, d, now, WithUuid(Last(h), d.sid));
      history := h;
      if tokens.Thrown? {
        KeepNewKey(d.refreshKid);
        return Thrown;
      }
      LoginRuns(c, h, user, client, d, tokens.value, jwtService.keyService.rows);
      sessionService.CreateNewSession(CreateUserData(client, user, tokens.value, d), now);
      history := Then(c, h, AuthSystem.Login(user, client, d.sid, IdsOf(tokens.value, d)));
      r := tokens;
    }

    /** For one of the two tokens there is no key, and none can be made. */
    ghost predicate CannotSignPair(keys: Keys, d: Draw)
      reads jwtService.keyService
    {
      var busy := jwtService.keyService.isKeyBeingCreated;
      NoKeyFor(keys, RefreshKey, busy, d.refreshSaved) || NoKeyFor(keys, AccessKey, busy, d.accessSaved)
    }

    /** The run since `before`: the clock was read and the user was logged in. */
    ghost predicate LoggedIn(before: History, user: User, client: Client, d: Draw, tokens: JwtResponse, now: int)
      reads this
      requires before.states != [] && Last(before).now <= now
    {
      history == Then(jwtService.config, AtTime(jwtService.config, before, now),
                      AuthSystem.Login(user, client, d.sid, IdsOf(tokens, d)))
    }

    /** Signing failed: at most a refresh key was created before it did. */
    ghost predicate SigningFailed(before: History, d: Draw, now: int)
      reads this
      requires before.states != [] && Last(before).now <= now
    {
      var h := AtTime(jwtService.config, before, now);
      history == h || history == Then(jwtService.config, h, CreateKey(RefreshKey, d.refreshKid))
    }

    ghost method KeepNewKey(kid: string)
      requires IsHistory(jwtService.config, history) && sessionService.Valid() && userService.Valid()
      requires forall id | id in userService.rows :: IsUuid(id)
      requires IsUuid(kid) && kid !in Last(history).uuids && Last(history).sessions == sessionService.model
      requires jwtService.keyService.rows in {Last(history).keys, WithKey(Last(history), RefreshKey, kid).keys}
      modifies this
      ensures Valid()
      ensures history in {old(history), Then(jwtService.config, old(history), CreateKey(RefreshKey, kid))}
    {
      if jwtService.keyService.rows != Last(history).keys {
        ThenRuns(jwtService.config, history, CreateKey(RefreshKey, kid));
        history := Then(jwtService.config, history, CreateKey(RefreshKey, kid));
      }
    }

    method Login(email: string, password: string, client: Client, d: Draw, now: int) returns (r: Outcome<JwtResponse>)
      requires Valid() && Last(history).now <= now && IsFresh(d, Last(history).uuids) && IsUuid(d.sid)
      modifies this, jwtService.keyService, sessionService, sessionService.cacheService
      ensures Valid()
      ensures (forall id :: !Credentials(userService.rows, id, email, password)) ==>
                r.Thrown? && history == old(history)
      ensures forall id | Credentials(userService.rows, id, email, password) ::
                && (r.Thrown? <==> CannotSignPair(old(jwtService.keyService.rows), d))
                && if r.Thrown? then SigningFailed(old(history), d, now)
                   else
                     && LoggedIn(old(history), UserOf(id, userService.rows[id]), client, d, r.value, now)
                     && Opened(jwtService.config, Last(history), r.value, d.sid, id, userService.rows[id].email,
                               userService.rows[id].name, client)
    {
      var id := userService.FindByEmail(email);
      if id.None? || userService.rows[id.value].password != Hash(password) {
        return Thrown;
      }
      assert Credentials(userService.rows, id.value, email, password);
      r := OpenSession(UserOf(id.value, userService.rows[id.value]), client, d, now);
    }

    /** Nobody else can sign: a token that verifies as a mail token was issued as one. */
    ghost predicate Genuine(token: Token, kind: KeyType, now: int)
      reads this, jwtService.keyService
      requires history.states != []
    {
      Tokens.Verify(jwtService.keyService.rows, token, kind, now) == Returned(Some(token.claims)) ==>
        Issued(kind, token) in Last(history).issued
    }

    /** The link from the confirmation mail: the token's own user becomes active and is logged in. */
    method VerifyEmail(token: Token, client: Client, d: Draw, now: int) returns (r: Outcome<JwtResponse>)
      requires Valid() && Last(history).now <= now && IsFresh(d, Last(history).uuids) && IsUuid(d.sid)
      requires Genuine(token, ConfirmationUserKey, now)
      modifies this, jwtService.keyService, sessionService, sessionService.cacheService, userService
      ensures Valid()
      ensures !LinkWorks(old(jwtService.keyService.rows), old(userService.rows), token, ConfirmationUserKey, now) ==>
                r.Thrown? && history == old(history) && userService.rows == old(userService.rows)
      ensures LinkWorks(old(jwtService.keyService.rows), old(userService.rows), token, ConfirmationUserKey, now) ==>
                var id := token.claims.subject.sub.value;
                && userService.rows == Handled(old(userService.rows), UserModel.VerifyEmail(id))
                && id in old(userService.rows) && id in userService.rows
                && OthersKept(old(userService.rows), userService.rows, id)
                && userService.rows[id] == old(userService.rows)[id].(status := Active)
                && (r.Thrown? <==> CannotSignPair(old(jwtService.keyService.rows), d))
                && if r.Thrown? then SigningFailed(old(history), d, now)
                   else
                     && LoggedIn(old(history), UserOf(id, userService.rows[id]), client, d, r.value, now)
                     && Opened(jwtService.config, Last(history), r.value, d.sid, id, userService.rows[id].email,
                               userService.rows[id].name, client)
    {
      LastKeepsInv(jwtService.config, history);
      var verified := jwtService.Verify(token, ConfirmationUserKey, now);
      if verified.Thrown? || verified.value.None? {
        return Thrown;
      }
      var id := verified.value.value.subject.sub.value;
      var user := userService.VerifyEmail(id);
      if user.Refused? {
        return Thrown;
      }
      r := OpenSession(UserOf(id, userService.rows[id]), client, d, now);
    }

    /** The link from the reset mail: the token's own user gets the new password and is logged in. */
    method ResetPassword(token: Token, password: string, client: Client, d: Draw, now: int)
      returns (r: Outcome<JwtResponse>)
      requires Valid() && Last(history).now <= now && IsFresh(d, Last(history).uuids) && IsUuid(d.sid)
      requires Genuine(token, ResetPasswordKey, now)
      modifies this, jwtService.keyService, sessionService, sessionService.cacheService, userService
      ensures Valid()
      ensures !LinkWorks(old(jwtService.keyService.rows), old(userService.rows), token, ResetPasswordKey, now) ==>
                r.Thrown? && history == old(history) && userService.rows == old(userService.rows)
      ensures LinkWorks(old(jwtService.keyService.rows), old(userService.rows), token, ResetPasswordKey, now) ==>
                var id := token.claims.subject.sub.value;
                && userService.rows == Handled(old(userService.rows), UserModel.ResetPassword(id, password))
                && id in old(userService.rows) && id in userService.rows
                && OthersKept(old(userService.rows), userService.rows, id)
                && (forall q :: Credentials(userService.rows, id, old(userService.rows)[id].email, q) <==>
                                  q == password)
                && (r.Thrown? <==> CannotSignPair(old(jwtService.keyService.rows), d))
                && if r.Thrown? then SigningFailed(old(history), d, now)
                   else
                     && LoggedIn(old(history), UserOf(id, userService.rows[id]), client, d, r.value, now)
                     && Opened(jwtService.config, Last(history), r.value, d.sid, id, userService.rows[id].email,
                               userService.rows[id].name, client)
    {
      LastKeepsInv(jwtService.config, history);
      var verified := jwtService.Verify(token, ResetPasswordKey, now);
      if verified.Thrown? || verified.value.None? {
        return Thrown;
      }
      var id := verified.value.value.subject.sub.value;
      ghost var rows := userService.rows;
      var user := userService.ResetPassword(id, password);
      if user.Refused? {
        return Thrown;
      }
      ResetSetsPassword(rows, id, password);
      r := OpenSession(UserOf(id, userService.rows[id]), client, d, now);
    }

    /** Reads the session, signs a new pair under its id, and overwrites the record's two token ids and expiries. */
    method Refresh(caller: Subject, sessionId: string, d: Draw, now: int) returns (r: Outcome<JwtResponse>)
      requires Valid() && Last(history).now <= now && IsFresh(d, Last(history).uuids)
      modifies this, jwtService.keyService, sessionService, sessionService.cacheService
      ensures Valid()
      ensures !Live(Last(old(history)).sessions, sessionId, now) ==> r.Thrown? && history == old(history)
      ensures Live(Last(old(history)).sessions, sessionId, now) ==>
                (r.Thrown? <==> CannotSignPair(old(jwtService.keyService.rows), d))
      ensures r.Thrown? && Live(Last(old(history)).sessions, sessionId, now) ==> SigningFailed(old(history), d, now)
      ensures r.Returned? ==>
                Renewed(jwtService.config, Last(old(history)).sessions, Last(history), r.value, sessionId, caller)
      ensures r.Returned? ==>
                history == Then(jwtService.config, AtTime(jwtService.config, old(history), now),
                                RefreshTokens(sessionId, caller, IdsOf(r.value, d)))
    {
      var found := sessionService.GetSessionById(sessionId, now);
      if found.WrongType? || found.value.None? {
        return Thrown;
      }
      TimeRuns(jwtService.config, history, now);
      history := AtTime(jwtService.config, history, now);
      RecordIdIsUuid(sessionId, now);
      r := jwtService.SignTokens(caller, Some(sessionId), d, now, Last(history));
      if r.Thrown? {
        KeepNewKey(d.refreshKid);
        return;
      }
      OverwriteRecord(found.value.value, caller, d, r.value, now);
    }

    method OverwriteRecord(userData: SessionData, caller: Subject, d: Draw, tokens: JwtResponse, now: int)
      requires IsHistory(jwtService.config, history) && sessionService.Valid() && userService.Valid()
      requires forall id | id in userService.rows :: IsUuid(id)
      requires Last(history).sessions == sessionService.model && now == Last(history).now
      requires Live(Last(history).sessions, tokens.sessionId, now) && IsUuid(tokens.sessionId)
      requires userData == Last(history).sessions.records[tokens.sessionId].data
      requires userData.sessionId == tokens.sessionId
      requires SignedFrom(jwtService.config, Last(history), caller, tokens, d, jwtService.keyService.rows)
      modifies this, sessionService, sessionService.cacheService
      ensures Valid()
      ensures history == Then(jwtService.config, old(history),
                              RefreshTokens(tokens.sessionId, caller, IdsOf(tokens, d)))
      ensures Renewed(jwtService.config, Last(old(history)).sessions, Last(history), tokens, tokens.sessionId, caller)
    {
      RefreshRuns(jwtService.config, history, caller, d, tokens, jwtService.keyService.rows);
      sessionService.UpdateSession(Overwritten(userData, tokens, d), now);
      history := Then(jwtService.config, history, RefreshTokens(tokens.sessionId, caller, IdsOf(tokens, d)));
    }

    lemma RecordIdIsUuid(sid: string, now: int)
      requires IsHistory(jwtService.config, history)
      requires sessionService.Valid() && Last(history).sessions == sessionService.model
      requires Live(Last(history).sessions, sid, now)
      ensures IsUuid(sid) && Last(history).sessions.records[sid].data.sessionId == sid
    {
      LastKeepsInv(jwtService.config, history);
    }

    // ---------- Requests that send a link ----------

    /** The token of a link is issued and names the user, lives as long as its kind does, and belongs to no session. */
    ghost predicate Mailed(token: Token, kind: KeyType, id: string, email: string, name: string, now: int)
      reads this, jwtService.keyService
      requires history.states != []
    {
      && Issued(kind, token) in Last(history).issued
      && token.kid == Some(token.signedBy) && Usable(jwtService.keyService.rows, kind, token.signedBy)
      && token.claims.subject.sub == Some(id) && token.claims.subject.email == Some(email)
      && token.claims.subject.name == Some(name) && token.claims.sessionId == None
      && token.claims.exp == NowSeconds(now) +
           if kind.ConfirmationUserKey? then jwtService.config.confirmation else jwtService.config.reset
    }

    /** What registration, a repeated confirmation and a forgotten password share. */
    method SignMailToken(kind: KeyType, user: User, jti: string, newKid: string, saved: bool, now: int)
      returns (r: Outcome<Token>)
      requires Valid() && Last(history).now <= now && IsMailKey(kind)
      requires IsUuid(newKid) && newKid != jti && {newKid, jti} !! Last(history).uuids
      modifies this, jwtService.keyService
      ensures Valid()
      ensures r.Thrown? <==>
                NoKeyFor(old(jwtService.keyService.rows), kind, jwtService.keyService.isKeyBeingCreated, saved)
      ensures r.Thrown? ==> history == old(history)
      ensures r.Returned? ==>
                && history == Then(jwtService.config, AtTime(jwtService.config, old(history), now),
                                   AuthSystem.SignMailToken(kind, user, r.value.signedBy, jti))
                && Mailed(r.value, kind, user.id, user.email, user.name, now)
    {
      var c := jwtService.config;
      TimeRuns(c, history, now);
      r := jwtService.SignWithCurrentKey(kind, SubjectOf(user), None, jti, newKid, saved, now);
      if r.Returned? {
        ghost var h, e := AtTime(c, history, now), AuthSystem.SignMailToken(kind, user, r.value.signedBy, jti);
        assert CanSign(Last(h), kind, r.value.signedBy, jti);
        ThenRuns(c, h, e);
        history := Then(c, h, e);
      }
    }

    /** The new row is there to stay, even if its confirmation link cannot be signed; `id` is the database's choice. */
    method Register(email: string, password: string, name: string, id: string, jti: string, newKid: string, saved: bool,
                    now: int) returns (r: Outcome<Token>)
      requires Valid() && Last(history).now <= now && IsUuid(id) && id !in userService.rows
      requires IsUuid(newKid) && newKid != jti && {newKid, jti} !! Last(history).uuids
      modifies this, jwtService.keyService, userService
      ensures Valid() && (r.Thrown? ==> history == old(history))
      ensures ExistsByEmail(old(userService.rows), email) ==> r.Thrown? && userService.rows == old(userService.rows)
      ensures !ExistsByEmail(old(userService.rows), email) ==>
                userService.rows == Handled(old(userService.rows), UserModel.Register(id, email, password, name))
      ensures !ExistsByEmail(old(userService.rows), email) ==>
                && userService.rows ==
                     old(userService.rows)[id := UserRow(email, Hash(password), name, Member, Inactive, false)]
                && (r.Thrown? <==> NoKeyFor(old(jwtService.keyService.rows), ConfirmationUserKey,
                                            jwtService.keyService.isKeyBeingCreated, saved))
      ensures r.Returned? ==>
                && history == Then(jwtService.config, AtTime(jwtService.config, old(history), now),
                                   AuthSystem.SignMailToken(ConfirmationUserKey, User(id, email, name),
                                                            r.value.signedBy, jti))
                && Mailed(r.value, ConfirmationUserKey, id, email, name, now)
                && forall keys: Keys, later |
                     && r.value.signedBy in keys && keys[r.value.signedBy].kind == ConfirmationUserKey
                     && later < r.value.claims.exp * 1000 ::
                     LinkWorks(keys, userService.rows, r.value, ConfirmationUserKey, later)
    {
      var user := userService.Register(email, password, name, id);
      if user.Refused? {
        return Thrown;
      }
      r := SignMailToken(ConfirmationUserKey, UserOf(id, userService.rows[id]), jti, newKid, saved, now);
      if r.Returned? {
        LastKeepsInv(jwtService.config, history);
        NewLinkWorks(r.value, id);
      }
    }

    /** A confirmation link for an inactive user works until it expires or its key goes. */
    lemma NewLinkWorks(token: Token, id: string)
      requires Valid() && Inv(Last(history)) && Issued(ConfirmationUserKey, token) in Last(history).issued
      requires token.claims.subject.sub == Some(id)
      requires Found(userService.rows, id) && userService.rows[id].status == Inactive
      ensures forall keys: Keys, later |
                && token.signedBy in keys && keys[token.signedBy].kind == ConfirmationUserKey
                && later < token.claims.exp * 1000 ::
                LinkWorks(keys, userService.rows, token, ConfirmationUserKey, later)
    {
      assert Refuses(userService.rows, UserModel.VerifyEmail(id)) == None;
    }

    /** Only a live user who is neither active nor blocked is sent another confirmation link. */
    method ResendVerificationEmail(email: string, jti: string, newKid: string, saved: bool, now: int)
      returns (r: Outcome<Token>)
      requires Valid() && Last(history).now <= now
      requires IsUuid(newKid) && newKid != jti && {newKid, jti} !! Last(history).uuids
      modifies this, jwtService.keyService
      ensures Valid() && (r.Thrown? ==> history == old(history))
      ensures r.Thrown? <==>
                || (forall id | Found(userService.rows, id) :: userService.rows[id].email != email
                      || userService.rows[id].status == Active || userService.rows[id].status == Blocked)
                || NoKeyFor(old(jwtService.keyService.rows), ConfirmationUserKey,
                            jwtService.keyService.isKeyBeingCreated, saved)
      ensures r.Returned? ==>
                exists id | Found(userService.rows, id) && userService.rows[id].email == email ::
                  && userService.rows[id].status == Inactive
                  && history == Then(jwtService.config, AtTime(jwtService.config, old(history), now),
                                     AuthSystem.SignMailToken(ConfirmationUserKey, UserOf(id, userService.rows[id]),
                                                              r.value.signedBy, jti))
                  && Mailed(r.value, ConfirmationUserKey, id, email, userService.rows[id].name, now)
    {
      var id := userService.FindByEmail(email);
      if id.None? || userService.rows[id.value].status == Active || userService.rows[id.value].status == Blocked {
        return Thrown;
      }
      r := SignMailToken(ConfirmationUserKey, UserOf(id.value, userService.rows[id.value]), jti, newKid, saved, now);
    }

    method SendResetPassword(email: string, jti: string, newKid: string, saved: bool, now: int)
      returns (r: Outcome<Token>)
      requires Valid() && Last(history).now <= now
      requires IsUuid(newKid) && newKid != jti && {newKid, jti} !! Last(history).uuids
      modifies this, jwtService.keyService
      ensures Valid() && (r.Thrown? ==> history == old(history))
      ensures r.Thrown? <==>
                || (forall id | Found(userService.rows, id) :: userService.rows[id].email != email)
                || NoKeyFor(old(jwtService.keyService.rows), ResetPasswordKey, jwtService.keyService.isKeyBeingCreated,
                            saved)
      ensures r.Returned? ==>
                exists id | Found(userService.rows, id) && userService.rows[id].email == email ::
                  && history == Then(jwtService.config, AtTime(jwtService.config, old(history), now),
                                     AuthSystem.SignMailToken(ResetPasswordKey, UserOf(id, userService.rows[id]),
                                                              r.value.signedBy, jti))
                  && Mailed(r.value, ResetPasswordKey, id, email, userService.rows[id].name, now)
    {
      var id := userService.FindByEmail(email);
      if id.None? {
        return Thrown;
      }
      r := SignMailToken(ResetPasswordKey, UserOf(id.value, userService.rows[id.value]), jti, newKid, saved, now);
    }

    // ---------- Requests that end sessions ----------

    /**
      The cookie's token is only decoded, so its session id may be any string, or missing; where there is no cookie or
      nothing to decode the request throws.
     */
    method Logout(refreshToken: Option<Token>, now: int) returns (ok: bool)
      requires Valid() && Last(history).now <= now
      modifies this, sessionService, sessionService.cacheService
      ensures Valid()
      ensures refreshToken.None? ==> !ok && history == old(history)
      ensures refreshToken.Some? ==>
                var sid := if refreshToken.value.claims.sessionId.Some? then refreshToken.value.claims.sessionId.value
                           else "undefined";
                && history == Then(jwtService.config, AtTime(jwtService.config, old(history), now),
                                   AuthSystem.Logout(sid))
                && (ok <==> !HoldsIndex(Last(old(history)).sessions, sid)) && (IsUuid(sid) ==> ok)
                && (!IsUuid(sid) ==> Last(history).sessions == Last(old(history)).sessions)
    {
      if refreshToken.None? {
        return false;
      }
      var sid := SessionIdText(refreshToken.value.claims);
      AnyGetRepresents(sessionService.cacheService.db, sessionService.model, sid, now);
      if !IsUuid(sid) {
        ForeignIdIsHarmless(sessionService.cacheService.db, sessionService.model, sid, now);
      }
      ok := sessionService.RemoveSession(sid, now);
      EndSessions(AuthSystem.Logout(sid), now);
    }

    /** The run goes on by `e`, which the session service has just carried out. */
    ghost method EndSessions(e: Event, now: int)
      requires IsHistory(jwtService.config, history) && Last(history).now <= now
      requires e.Logout? || e.LogoutAll? || e.LogoutSessions?
      requires sessionService.Valid() && userService.Valid() && Last(history).keys == jwtService.keyService.rows
      requires forall id | id in userService.rows :: IsUuid(id)
      requires sessionService.model == Ended(Last(history).sessions, e)
      modifies this
      ensures Valid() && history == Then(jwtService.config, AtTime(jwtService.config, old(history), now), e)
    {
      TimeRuns(jwtService.config, history, now);
      history := AtTime(jwtService.config, history, now);
      EndedIsApplied(jwtService.config, Last(history), e);
      ThenRuns(jwtService.config, history, e);
      history := Then(jwtService.config, history, e);
    }

    /** A caller without an id is told the same and logs nothing out. */
    method LogoutAll(userId: Option<string>, now: int)
      requires Valid() && Last(history).now <= now
      modifies this, sessionService, sessionService.cacheService
      ensures Valid()
      ensures history == Then(jwtService.config, AtTime(jwtService.config, old(history), now),
                              AuthSystem.LogoutAll(if userId.Some? then userId.value else "undefined"))
      ensures userId.None? ==> Last(history).sessions == Last(old(history)).sessions
    {
      NobodyIsIndexed(now);
      sessionService.RemoveAllSessions(UserIdText(userId), None, now);
      EndSessions(AuthSystem.LogoutAll(UserIdText(userId)), now);
    }

    /** A caller without an id ends the listed sessions too; only no index learns of it. */
    method LogoutSessions(userId: Option<string>, sessionIds: seq<string>, now: int)
      requires Valid() && Last(history).now <= now && AllUuids(IdSet(sessionIds))
      modifies this, sessionService, sessionService.cacheService
      ensures Valid()
      ensures history == Then(jwtService.config, AtTime(jwtService.config, old(history), now),
                              AuthSystem.LogoutSessions(if userId.Some? then userId.value else "undefined",
                                                        IdSet(sessionIds)))
      ensures userId.None? ==>
                var before, after := Last(old(history)).sessions, Last(history).sessions;
                after.records == before.records - IdSet(sessionIds) && after.index == before.index
    {
      NobodyIsIndexed(now);
      sessionService.RemoveAllSessions(UserIdText(userId), Some(sessionIds), now);
      EndSessions(AuthSystem.LogoutSessions(UserIdText(userId), IdSet(sessionIds)), now);
    }

    /** Under the text for a missing id there is no index, and nothing to take out of it. */
    lemma NobodyIsIndexed(now: int)
      requires Valid()
      ensures var m := Last(history).sessions;
              && UserIdText(None) !in m.index && m.index - {UserIdText(None)} == m.index
              && RemoveSessions(m, UserIdText(None), {}) == m
    {
      var m := Last(history).sessions;
      OnlyUuidsAreIndexed(sessionService.cacheService.db, m, UserIdText(None));
      RemoveNoSessions(m, UserIdText(None));
    }

    // ---------- Requests that only read ----------

    /** Exactly the live sessions of the caller, each once; none for a caller without an id. */
    method GetUserSessions(userId: Option<string>, now: int) returns (sessions: seq<SessionData>)
      requires Valid() && Last(history).now <= now
      ensures forall i, j | 0 <= i < j < |sessions| :: sessions[i] != sessions[j]
      ensures var m := Last(history).sessions;
              forall data :: data in sessions <==>
                exists sid :: Live(m, sid, now) && m.records[sid].data == data && userId == Some(data.userId)
    {
      sessions := sessionService.GetAllSessions(UserIdText(userId), now);
      ghost var m, h := Last(history).sessions, AtTime(jwtService.config, history, now);
      ghost var ids :| IsListing(ids, IndexOf(m, UserIdText(userId))) && sessions == Collect(m, ids, now);
      TimeRuns(jwtService.config, history, now);
      GetAllSessionsIsExact(jwtService.config, h.states, h.events, |h.events|, UserIdText(userId), ids);
      NobodyIsIndexed(now);
      LastKeepsInv(jwtService.config, history);
      assert forall sid | sid in m.records :: m.records[sid].data.userId != UserIdText(None);
    }

    /** What both strategies ask after the signature: the session's stored token id must be the token's. */
    method ValidatePayload(claims: Claims, validation: TokenValidationType, now: int) returns (r: Outcome<string>)
      requires Valid()
      ensures r == if ValidateSession(Last(history).sessions, claims, validation, now)
                   then Returned(if claims.sessionId.Some? then claims.sessionId.value else "undefined") else Thrown
    {
      var found := sessionService.GetSessionById(SessionIdText(claims), now);
      if found.WrongType? {
        ForeignIdIsHarmlessHere(SessionIdText(claims), now);
        return Thrown;
      }
      if found.value.None? {
        return Thrown;
      }
      var stored := if validation == Access then found.value.value.jwtAccessId else found.value.value.jwtRefreshId;
      r := if claims.jti == Some(stored) then Returned(SessionIdText(claims)) else Thrown;
    }

    lemma ForeignIdIsHarmlessHere(sid: string, now: int)
      requires Valid() && !IsUuid(sid)
      ensures !Live(Last(history).sessions, sid, now)
    {
      ForeignIdIsHarmless(sessionService.cacheService.db, Last(history).sessions, sid, now);
    }
  }

  // ---------- The rotation beside the requests ----------

  /** The run after the first `n` of the rotation's eight calls. */
  function Rotating(c: Config, h: History, kids: seq<string>, added: seq<bool>, clock: seq<int>, n: nat): (r: History)
    requires h.states != [] && |kids| == 4 && |added| == 4 && |clock| == 8 && n <= 8
    requires Last(h).now <= clock[0] && forall i | 0 <= i < 7 :: clock[i] <= clock[i + 1]
    ensures r.states != [] && Last(r).now == if n == 0 then Last(h).now else clock[n - 1]
  {
    if n == 0 then h
    else
      var g := AtTime(c, Rotating(c, h, kids, added, clock, n - 1), clock[n - 1]);
      if n > 4 then Then(c, g, RemoveOldKeys(KINDS[n - 5]))
      else if added[n - 1] then Then(c, g, CreateKey(KINDS[n - 1], kids[n - 1]))
      else g
  }

  lemma {:induction false} RotationRuns(c: Config, h: History, kids: seq<string>, added: seq<bool>, clock: seq<int>,
                                        n: nat)
    requires IsHistory(c, h) && |added| == 4 && n <= 8
    requires FreshKids(Last(h).keys, kids) && ClockedFrom(Last(h).keys, clock) && Last(h).now <= clock[0]
    requires forall i | 0 <= i < 4 :: IsUuid(kids[i]) && kids[i] !in Last(h).uuids
    ensures var g := Rotating(c, h, kids, added, clock, n);
            && IsHistory(c, g) && Last(g).sessions == Last(h).sessions
            && (forall i | n <= i < 4 :: kids[i] !in Last(g).uuids)
            && Last(g).keys == if n <= 4 then Grown(Last(h).keys, kids, added, clock, n)
                               else Purged(Grown(Last(h).keys, kids, added, clock, 4), clock, n - 4)
  {
    if n > 0 {
      RotationRuns(c, h, kids, added, clock, n - 1);
      var before := Rotating(c, h, kids, added, clock, n - 1);
      TimeRuns(c, before, clock[n - 1]);
      var g := AtTime(c, before, clock[n - 1]);
      if n > 4 {
        ThenRuns(c, g, RemoveOldKeys(KINDS[n - 5]));
      } else if added[n - 1] {
        ThenRuns(c, g, CreateKey(KINDS[n - 1], kids[n - 1]));
      }
    }
  }

  /** The monthly job continues the same run by its additions and removals. */
  method Rotate(auth: AuthService, job: KeyRotationService, kids: seq<string>, saved: seq<bool>, clock: seq<int>)
    requires auth.Valid() && job.keyService == auth.jwtService.keyService && |saved| == 4
    requires FreshKids(job.keyService.rows, kids) && ClockedFrom(job.keyService.rows, clock)
    requires Last(auth.history).now <= clock[0]
    requires forall i | 0 <= i < 4 :: IsUuid(kids[i]) && kids[i] !in Last(auth.history).uuids
    modifies auth, job.keyService
    ensures auth.Valid()
    ensures auth.history == Rotating(auth.jwtService.config, old(auth.history), kids,
                                     if job.keyService.isKeyBeingCreated then NONE else saved, clock, 8)
  {
    ghost var added := if job.keyService.isKeyBeingCreated then NONE else saved;
    RotationRuns(auth.jwtService.config, auth.history, kids, added, clock, 8);
    job.HandleCron(kids, saved, clock);
    auth.history := Rotating(auth.jwtService.config, auth.history, kids, added, clock, 8);
  }
}
