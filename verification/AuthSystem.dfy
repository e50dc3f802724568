/**
  The authentication protocol at the grain of whole requests: sessions, signing keys, issued tokens and the
  clock, changed by logins, refreshes, logouts, mail tokens, key rotation and the passing of time. Verifying an
  e-mail address or resetting a password ends in the same steps as a login.
 */
module AuthSystem {
  import opened Options
  import opened Uuids
  import opened SessionModel
  import opened KeyModel
  import opened Tokens

  /** Token lifetimes in seconds. */
  datatype Config = Config(access: int, refresh: int, confirmation: int, reset: int) {
    function Life(kind: KeyType): int {
      match kind
      case AccessKey => access
      case RefreshKey => refresh
      case ConfirmationUserKey => confirmation
      case ResetPasswordKey => reset
    }
  }

  datatype User = User(id: string, email: string, name: string)

  datatype Client = Client(ip: string, userAgent: string, os: string, browser: string)

  datatype Issued = Issued(kind: KeyType, token: Token)

  /** `uuids` holds every identifier handed out so far: key ids, session ids and token ids. */
  datatype State = State(now: int, keys: Keys, sessions: Sessions, uuids: set<string>, issued: set<Issued>)

  /** The identifiers one `signTokens` call uses; a key id is drawn only if a key must be created. */
  datatype PairIds = PairIds(refreshKid: string, refreshJti: string, accessKid: string, accessJti: string)

  datatype Event =
    | Login(user: User, client: Client, sid: string, ids: PairIds)
    | RefreshTokens(sid: string, caller: Subject, ids: PairIds)
    | SignMailToken(kind: KeyType, user: User, kid: string, jti: string)
    | Logout(sid: string)
    | LogoutAll(uid: string)
    | LogoutSessions(uid: string, sids: set<string>)
    | CreateKey(kind: KeyType, kid: string)
    | RemoveOldKeys(kind: KeyType)
    | Advance(ms: nat)

  // ---------- Signing ----------

  function WithKey(s: State, kind: KeyType, kid: string): State {
    if kid in s.keys then s else s.(keys := AddKey(s.keys, kind, kid, s.now), uuids := s.uuids + {kid})
  }

  /** `kid` is what `getCurrentKey` settles on: the newest key, or a new one where there is none. */
  ghost predicate CanSign(s: State, kind: KeyType, kid: string, jti: string) {
    && IsUuid(kid)
    && (IsCurrent(s.keys, kind, kid) || (NoneUsable(s.keys, kind) && kid !in s.uuids))
    && jti !in s.uuids && jti != kid
  }

  function NewToken(c: Config, s: State, kind: KeyType, kid: string, jti: string, subject: Subject,
                    sid: Option<string>): Token {
    Sign(kid, subject, sid, jti, c.Life(kind), s.now)
  }

  function AfterSigning(c: Config, s: State, kind: KeyType, kid: string, jti: string, subject: Subject,
                        sid: Option<string>): State {
    var t := WithKey(s, kind, kid);
    t.(uuids := t.uuids + {jti}, issued := t.issued + {Issued(kind, NewToken(c, s, kind, kid, jti, subject, sid))})
  }

  function SubjectOf(user: User): Subject {
    Subject(Some(user.id), Some(user.email), Some(user.name))
  }

  // ---------- signTokens and what is recorded of it ----------

  function AfterRefreshToken(c: Config, s: State, subject: Subject, sid: string, ids: PairIds): State {
    AfterSigning(c, s, RefreshKey, ids.refreshKid, ids.refreshJti, subject, Some(sid))
  }

  function AfterTokens(c: Config, s: State, subject: Subject, sid: string, ids: PairIds): State {
    AfterSigning(c, AfterRefreshToken(c, s, subject, sid, ids), AccessKey, ids.accessKid, ids.accessJti, subject,
                 Some(sid))
  }

  ghost predicate CanSignTokens(c: Config, s: State, subject: Subject, sid: string, ids: PairIds) {
    && CanSign(s, RefreshKey, ids.refreshKid, ids.refreshJti)
    && CanSign(AfterRefreshToken(c, s, subject, sid, ids), AccessKey, ids.accessKid, ids.accessJti)
  }

  function NewSessionData(c: Config, s: State, user: User, client: Client, sid: string, ids: PairIds): SessionData {
    SessionData(client.ip, client.userAgent, user.id, user.email, client.os, client.browser,
                ids.accessJti, NowSeconds(s.now) + c.access, ids.refreshJti, NowSeconds(s.now) + c.refresh, sid)
  }

  /** A refresh overwrites the two token ids and their expiry times, nothing else. */
  function RefreshedData(c: Config, s: State, data: SessionData, ids: PairIds): SessionData {
    data.(jwtAccessId := ids.accessJti, expAcc := NowSeconds(s.now) + c.access,
          jwtRefreshId := ids.refreshJti, expRef := NowSeconds(s.now) + c.refresh)
  }

  // ---------- Requests ----------

  /** The key types of the tokens that go out by mail. */
  predicate IsMailKey(kind: KeyType) {
    kind.ConfirmationUserKey? || kind.ResetPasswordKey?
  }

  function WithUuid(s: State, id: string): State {
    s.(uuids := s.uuids + {id})
  }

  /** Whether the event can be a completed request of `s`: drawn identifiers are new, a refreshed session is live. */
  ghost predicate Enabled(c: Config, s: State, e: Event) {
    match e
    case Login(user, client, sid, ids) =>
      sid !in s.uuids && CanSignTokens(c, WithUuid(s, sid), SubjectOf(user), sid, ids)
    case RefreshTokens(sid, caller, ids) =>
      Live(s.sessions, sid, s.now) && CanSignTokens(c, s, caller, sid, ids)
    case SignMailToken(kind, user, kid, jti) =>
      IsMailKey(kind) && CanSign(s, kind, kid, jti)
    case CreateKey(kind, kid) => IsUuid(kid) && kid !in s.uuids
    case _ => true
  }

  function Apply(c: Config, s: State, e: Event): State {
    match e
    case Login(user, client, sid, ids) =>
      var t := AfterTokens(c, WithUuid(s, sid), SubjectOf(user), sid, ids);
      var data := NewSessionData(c, s, user, client, sid, ids);
      t.(sessions := StoreSession(s.sessions, data, sid, data.expRef, s.now))
    case RefreshTokens(sid, caller, ids) =>
      if !Live(s.sessions, sid, s.now) then s
      else
        var data := RefreshedData(c, s, s.sessions.records[sid].data, ids);
        AfterTokens(c, s, caller, sid, ids).(sessions := UpdateSession(s.sessions, data, s.now))
    case SignMailToken(kind, user, kid, jti) => AfterSigning(c, s, kind, kid, jti, SubjectOf(user), None)
    case Logout(sid) => s.(sessions := RemoveSession(s.sessions, sid))
    case LogoutAll(uid) => s.(sessions := RemoveSessions(s.sessions, uid, IndexOf(s.sessions, uid)))
    case LogoutSessions(uid, sids) => s.(sessions := RemoveSessions(s.sessions, uid, sids))
    case CreateKey(kind, kid) => WithKey(s, kind, kid)
    case RemoveOldKeys(kind) => s.(keys := RemoveOld(s.keys, kind, RetentionDays(kind), s.now))
    case Advance(ms) => s.(now := s.now + ms)
  }

  /** A run from an empty system in which every event was possible when it happened. */
  ghost predicate Init(s: State) {
    s.keys == map[] && s.sessions == Sessions(map[], map[]) && s.uuids == {} && s.issued == {}
  }

  ghost predicate Run(c: Config, ss: seq<State>, es: seq<Event>) {
    && |ss| == |es| + 1
    && Init(ss[0])
    && forall i | 0 <= i < |es| :: Happens(c, ss, es, i)
  }

  ghost predicate Happens(c: Config, ss: seq<State>, es: seq<Event>, i: nat)
    requires |ss| == |es| + 1 && i < |es|
  {
    Enabled(c, ss[i], es[i]) && ss[i + 1] == Apply(c, ss[i], es[i])
  }

  /** The identifiers that the program and its database draw are UUIDs; callers may send others. */
  predicate DrawsUuids(e: Event) {
    match e
    case Login(user, _, sid, ids) =>
      AllUuids({user.id, sid, ids.refreshKid, ids.refreshJti, ids.accessKid, ids.accessJti})
    case RefreshTokens(_, _, ids) => AllUuids({ids.refreshKid, ids.refreshJti, ids.accessKid, ids.accessJti})
    case SignMailToken(_, user, kid, jti) => AllUuids({user.id, kid, jti})
    case CreateKey(_, kid) => IsUuid(kid)
    case _ => true
  }

  ghost predicate UuidRun(c: Config, ss: seq<State>, es: seq<Event>) {
    Run(c, ss, es) && forall i | 0 <= i < |es| :: DrawsUuids(es[i])
  }

  // ---------- What every step keeps ----------

  /** Every record is filed under its own id, was made from ids of the system, and is in its owner's index. */
  ghost predicate RecordsKnown(s: State) {
    forall sid | sid in s.sessions.records ::
      var data := s.sessions.records[sid].data;
      && data.sessionId == sid && sid in s.uuids
      && data.jwtAccessId in s.uuids && data.jwtRefreshId in s.uuids
      && sid in IndexOf(s.sessions, data.userId)
  }

  /** An index may hold ids whose record is gone, but a record it points to belongs to its user. */
  ghost predicate IndexesOwned(m: Sessions, uuids: set<string>) {
    forall uid, sid | sid in IndexOf(m, uid) ::
      sid in uuids && (sid in m.records ==> m.records[sid].data.userId == uid)
  }

  ghost predicate KeysKnown(s: State) {
    forall kid | kid in s.keys :: kid in s.uuids && IsUuid(kid) && s.keys[kid].createdAt <= s.now
  }

  ghost predicate IssuedKnown(s: State) {
    forall t | t in s.issued ::
      && t.token.kid == Some(t.token.signedBy) && IsUuid(t.token.signedBy) && t.token.signedBy in s.uuids
      && t.token.claims.jti.Some? && t.token.claims.jti.value in s.uuids
      && (t.token.signedBy in s.keys ==> s.keys[t.token.signedBy].kind == t.kind)
      && (IsMailKey(t.kind) ==> t.token.claims.subject.sub.Some?)
  }

  ghost predicate JtisUnique(issued: set<Issued>) {
    forall t, u | t in issued && u in issued && t.token.claims.jti == u.token.claims.jti :: t == u
  }

  ghost predicate Inv(s: State) {
    && RecordsKnown(s)
    && IndexesOwned(s.sessions, s.uuids)
    && KeysKnown(s)
    && IssuedKnown(s)
    && JtisUnique(s.issued)
  }

  /** Signing touches neither sessions nor clock, and only adds ids, keys and tokens. */
  lemma SigningKeeps(c: Config, s: State, kind: KeyType, kid: string, jti: string, subject: Subject,
                     sid: Option<string>)
    requires Inv(s) && CanSign(s, kind, kid, jti) && (IsMailKey(kind) ==> subject.sub.Some?)
    ensures var t := AfterSigning(c, s, kind, kid, jti, subject, sid);
            && Inv(t) && t.sessions == s.sessions && t.now == s.now && s.uuids <= t.uuids
            && jti in t.uuids && kid in t.uuids
            && Issued(kind, NewToken(c, s, kind, kid, jti, subject, sid)) in t.issued && s.issued <= t.issued
            && kid in t.keys && t.keys[kid].kind == kind
            && (forall k | k in s.keys :: k in t.keys && t.keys[k] == s.keys[k])
  {
  }

  lemma TokensKeep(c: Config, s: State, subject: Subject, sid: string, ids: PairIds)
    requires Inv(s) && CanSignTokens(c, s, subject, sid, ids)
    ensures var t := AfterTokens(c, s, subject, sid, ids);
            && Inv(t) && t.sessions == s.sessions && t.now == s.now && s.uuids <= t.uuids
            && ids.accessJti in t.uuids && ids.refreshJti in t.uuids
            && (forall k | k in s.keys :: k in t.keys && t.keys[k] == s.keys[k])
  {
    SigningKeeps(c, s, RefreshKey, ids.refreshKid, ids.refreshJti, subject, Some(sid));
    SigningKeeps(c, AfterRefreshToken(c, s, subject, sid, ids), AccessKey, ids.accessKid, ids.accessJti, subject,
                 Some(sid));
  }

  lemma StoringKeeps(s: State, data: SessionData)
    requires Inv(s) && {data.sessionId, data.jwtAccessId, data.jwtRefreshId} <= s.uuids
    requires data.sessionId !in s.sessions.records
    requires forall uid :: data.sessionId !in IndexOf(s.sessions, uid)
    ensures Inv(s.(sessions := StoreSession(s.sessions, data, data.sessionId, data.expRef, s.now)))
  {
    var m := StoreSession(s.sessions, data, data.sessionId, data.expRef, s.now);
    forall uid ensures IndexOf(m, uid) ==
        if uid == data.userId then IndexOf(s.sessions, uid) + {data.sessionId} else IndexOf(s.sessions, uid) {
    }
    assert RecordsKnown(s.(sessions := m));
    assert IndexesOwned(m, s.uuids);
  }

  lemma UpdatingKeeps(s: State, data: SessionData)
    requires Inv(s) && {data.jwtAccessId, data.jwtRefreshId} <= s.uuids
    requires data.sessionId in s.sessions.records && s.sessions.records[data.sessionId].data.userId == data.userId
    ensures Inv(s.(sessions := UpdateSession(s.sessions, data, s.now)))
  {
    var m := UpdateSession(s.sessions, data, s.now);
    forall uid ensures IndexOf(m, uid) == IndexOf(s.sessions, uid) {
    }
    assert RecordsKnown(s.(sessions := m));
  }

  /**
    Removing the records of `sids` together with those ids from one index keeps the two in agreement, whoever's
    index it is, provided no record that stays loses its entry.
   */
  lemma RemovingKeeps(s: State, uid: string, sids: set<string>)
    requires Inv(s)
    ensures Inv(s.(sessions := RemoveSessions(s.sessions, uid, sids)))
  {
    var m := RemoveSessions(s.sessions, uid, sids);
    forall u ensures IndexOf(m, u) == if u == uid then IndexOf(s.sessions, u) - sids else IndexOf(s.sessions, u) {
    }
    assert RecordsKnown(s.(sessions := m));
    assert IndexesOwned(m, s.uuids);
  }

  lemma StepKeepsInv(c: Config, s: State, e: Event)
    requires Inv(s) && Enabled(c, s, e)
    ensures Inv(Apply(c, s, e))
  {
    match e
    case Login(user, client, sid, ids) =>
      var t := WithUuid(s, sid);
      TokensKeep(c, t, SubjectOf(user), sid, ids);
      StoringKeeps(AfterTokens(c, t, SubjectOf(user), sid, ids), NewSessionData(c, s, user, client, sid, ids));
    case RefreshTokens(sid, caller, ids) =>
      TokensKeep(c, s, caller, sid, ids);
      UpdatingKeeps(AfterTokens(c, s, caller, sid, ids), RefreshedData(c, s, s.sessions.records[sid].data, ids));
    case SignMailToken(kind, user, kid, jti) => SigningKeeps(c, s, kind, kid, jti, SubjectOf(user), None);
    case Logout(sid) =>
      assert RemoveSession(s.sessions, sid) == RemoveSessions(s.sessions, sid, {sid});
      RemovingKeeps(s, sid, {sid});
    case LogoutAll(uid) => RemovingKeeps(s, uid, IndexOf(s.sessions, uid));
    case LogoutSessions(uid, sids) => RemovingKeeps(s, uid, sids);
    case CreateKey(kind, kid) =>
    case RemoveOldKeys(kind) =>
    case Advance(ms) =>
  }

  lemma {:induction false} RunKeepsInv(c: Config, ss: seq<State>, es: seq<Event>, i: nat)
    requires Run(c, ss, es) && i < |ss|
    ensures Inv(ss[i])
  {
    if i > 0 {
      RunKeepsInv(c, ss, es, i - 1);
      assert Happens(c, ss, es, i - 1);
      StepKeepsInv(c, ss[i - 1], es[i - 1]);
    }
  }
}
