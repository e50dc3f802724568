/** What holds of sessions in every state that whole requests can reach. */
module SessionTheorems {
  import opened Options
  import opened Uuids
  import opened DateHelpers
  import opened SessionModel
  import opened KeyModel
  import opened Tokens
  import opened AuthSystem

  // ---------- Index and records ----------

  ghost predicate FiledUnderOwnId(m: Sessions) {
    forall sid | sid in m.records :: m.records[sid].data.sessionId == sid
  }

  ghost predicate OneEach(found: seq<SessionData>) {
    forall i, j | 0 <= i < j < |found| :: found[i].sessionId != found[j].sessionId
  }

  lemma {:induction false} CollectedRecords(m: Sessions, ids: seq<string>, now: int)
    requires FiledUnderOwnId(m) && forall i, j | 0 <= i < j < |ids| :: ids[i] != ids[j]
    ensures forall data :: data in Collect(m, ids, now) <==>
              data.sessionId in ids && Live(m, data.sessionId, now) && m.records[data.sessionId].data == data
    ensures OneEach(Collect(m, ids, now))
  {
    if ids != [] {
      var last := |ids| - 1;
      CollectedRecords(m, ids[..last], now);
      assert ids == ids[..last] + [ids[last]];
      assert ids[last] !in ids[..last];
      var rest := Collect(m, ids[..last], now);
      assert forall i | 0 <= i < |rest| :: rest[i] in rest && rest[i].sessionId in ids[..last];
      if Live(m, ids[last], now) {
        var data := m.records[ids[last]].data;
        assert Collect(m, ids, now) == rest + [data] && data.sessionId == ids[last];
        assert forall i | 0 <= i < |rest| :: rest[i].sessionId != data.sessionId;
      } else {
        assert Collect(m, ids, now) == rest;
      }
    }
  }

  /**
    In whatever order Redis lists the index, `getAllSessions` returns exactly the live records of the user, each
    once, although logouts and expiry leave ids behind in the index.
   */
  lemma GetAllSessionsIsExact(c: Config, ss: seq<State>, es: seq<Event>, k: nat, uid: string, ids: seq<string>)
    requires Run(c, ss, es) && k < |ss| && IsListing(ids, IndexOf(ss[k].sessions, uid))
    ensures var m, now := ss[k].sessions, ss[k].now;
            var found := Collect(m, ids, now);
            && (forall i, j | 0 <= i < j < |found| :: found[i] != found[j])
            && (forall data :: data in found <==>
                  exists sid :: Live(m, sid, now) && m.records[sid].data == data && data.userId == uid)
  {
    RunKeepsInv(c, ss, es, k);
    var m, now := ss[k].sessions, ss[k].now;
    CollectedRecords(m, ids, now);
    forall data
      ensures data in Collect(m, ids, now) <==>
        exists sid :: Live(m, sid, now) && m.records[sid].data == data && data.userId == uid
    {
      assert data.sessionId in ids <==> data.sessionId in IdSet(ids);
      if sid :| Live(m, sid, now) && m.records[sid].data == data && data.userId == uid {
        assert data.sessionId == sid;
      }
    }
  }

  /** Logging out everywhere leaves no record of the user in the store and touches nobody else's. */
  lemma LogoutAllClears(c: Config, ss: seq<State>, es: seq<Event>, k: nat, uid: string)
    requires Run(c, ss, es) && k < |ss|
    ensures var m, m' := ss[k].sessions, Apply(c, ss[k], LogoutAll(uid)).sessions;
            && (forall sid :: sid in m'.records <==> sid in m.records && m.records[sid].data.userId != uid)
            && (forall sid | sid in m'.records :: m'.records[sid] == m.records[sid])
            && uid !in m'.index && m'.index == m.index - {uid}
  {
    RunKeepsInv(c, ss, es, k);
    var m, m' := ss[k].sessions, Apply(c, ss[k], LogoutAll(uid)).sessions;
    forall sid | sid in m.records ensures m.records[sid].data.userId == uid <==> sid in IndexOf(m, uid) {
    }
    assert IndexOf(m, uid) - IndexOf(m, uid) == {};
  }

  /**
    Logging out listed sessions removes exactly those records and exactly those ids from the one index. Nothing asks
    whose they are: another user's session goes exactly if the list names it, and its owner keeps the stale id.
   */
  lemma LogoutSessionsIsExact(c: Config, ss: seq<State>, es: seq<Event>, k: nat, uid: string, sids: set<string>)
    requires Run(c, ss, es) && k < |ss|
    ensures var m, m' := ss[k].sessions, Apply(c, ss[k], LogoutSessions(uid, sids)).sessions;
            && (forall sid :: sid in m'.records <==> sid in m.records && sid !in sids)
            && (forall sid | sid in m'.records :: m'.records[sid] == m.records[sid])
            && (forall u :: IndexOf(m', u) == if u == uid then IndexOf(m, u) - sids else IndexOf(m, u))
            && (forall sid | sid in m.records && m.records[sid].data.userId != uid ::
                  (sid !in m'.records <==> sid in sids) && sid in IndexOf(m', m.records[sid].data.userId))
            && (sids == {} ==> Apply(c, ss[k], LogoutSessions(uid, sids)) == ss[k])
  {
    RunKeepsInv(c, ss, es, k);
    IndexesStayNonEmpty(c, ss, es, k);
    RemoveNoSessions(ss[k].sessions, uid);
  }

  lemma {:induction false} IndexesStayNonEmpty(c: Config, ss: seq<State>, es: seq<Event>, k: nat)
    requires Run(c, ss, es) && k < |ss|
    ensures forall uid | uid in ss[k].sessions.index :: ss[k].sessions.index[uid] != {}
  {
    if k > 0 {
      IndexesStayNonEmpty(c, ss, es, k - 1);
      assert Happens(c, ss, es, k - 1);
      match es[k - 1]
      case Login(user, client, sid, ids) =>
        assert sid in IndexOf(ss[k - 1].sessions, user.id) + {sid};
      case _ =>
    }
  }

  /**
    Logging out removes the record, but the id leaves the index of the user whose id equals it: the owner's index
    keeps it, a stale id, unless session and owner happen to share one identifier.
   */
  lemma LogoutLeavesStaleId(c: Config, ss: seq<State>, es: seq<Event>, k: nat, sid: string)
    requires Run(c, ss, es) && k < |ss| && sid in ss[k].sessions.records
    ensures var uid, m' := ss[k].sessions.records[sid].data.userId, Apply(c, ss[k], Logout(sid)).sessions;
            && m'.records == ss[k].sessions.records - {sid}
            && (sid in IndexOf(m', uid) <==> sid != uid)
  {
    RunKeepsInv(c, ss, es, k);
  }

  // ---------- How long a record lives ----------

  /** The expiry a record should have: at most a second before its refresh token's, and never after it. */
  ghost predicate ExpiresWithToken(stored: Stored) {
    && stored.expireAt.Some?
    && stored.data.expRef * 1000 - 1000 < stored.expireAt.value <= stored.data.expRef * 1000
  }

  ghost predicate AllExpireWithToken(m: Sessions) {
    forall sid | sid in m.records :: ExpiresWithToken(m.records[sid])
  }

  /** What a write leaves, by the distance of `expRef` from the clock: nothing, a record for ever, or a bounded one. */
  lemma WriteOutcome(m: Sessions, sid: string, data: SessionData, now: int)
    ensures var m' := PutRecord(m, sid, data, ConvertTimeStampToSeconds(data.expRef, now), now);
            var left := data.expRef * 1000 - now;
            && (left <= -1000 ==> m' == m)
            && (left > -1000 ==> sid in m'.records && m'.records[sid].data == data)
            && (-1000 < left < 1000 ==> m'.records[sid].expireAt == None)
            && (left >= 1000 ==> ExpiresWithToken(m'.records[sid]) && Live(m', sid, now))
  {
    TtlCases(data.expRef, now);
  }

  lemma {:induction false} RecordsExpireWithTokens(c: Config, ss: seq<State>, es: seq<Event>, k: nat)
    requires Run(c, ss, es) && k < |ss| && (c.refresh >= 2 || c.refresh < 0)
    ensures AllExpireWithToken(ss[k].sessions)
  {
    if k > 0 {
      RecordsExpireWithTokens(c, ss, es, k - 1);
      assert Happens(c, ss, es, k - 1);
      var s := ss[k - 1];
      match es[k - 1]
      case Login(user, client, sid, ids) =>
        WriteOutcome(s.sessions, sid, NewSessionData(c, s, user, client, sid, ids), s.now);
      case RefreshTokens(sid, caller, ids) =>
        RunKeepsInv(c, ss, es, k - 1);
        WriteOutcome(s.sessions, sid, RefreshedData(c, s, s.sessions.records[sid].data, ids), s.now);
      case _ =>
    }
  }

  /** A login with new UUIDs all over. */
  predicate IsFirstLogin(e: Event) {
    && e.Login? && DrawsUuids(e)
    && e.sid !in {e.ids.refreshKid, e.ids.refreshJti, e.ids.accessKid, e.ids.accessJti}
    && e.ids.refreshKid !in {e.ids.refreshJti, e.ids.accessKid, e.ids.accessJti}
    && e.ids.refreshJti !in {e.ids.accessKid, e.ids.accessJti} && e.ids.accessKid != e.ids.accessJti
  }

  /** An empty system, a millisecond into a second. */
  const Start: State := State(1, map[], Sessions(map[], map[]), {}, {})

  lemma FirstLoginRuns(c: Config, e: Event)
    requires IsFirstLogin(e)
    ensures UuidRun(c, [Start, Apply(c, Start, e)], [e])
  {
    var s, subject := WithUuid(Start, e.sid), SubjectOf(e.user);
    assert IsUuid(e.ids.refreshKid) && IsUuid(e.ids.accessKid);
    assert CanSign(s, RefreshKey, e.ids.refreshKid, e.ids.refreshJti);
    var t := AfterRefreshToken(c, s, subject, e.sid, e.ids);
    assert t.keys == map[e.ids.refreshKid := Key(RefreshKey, 1, true)];
    assert t.uuids == {e.sid, e.ids.refreshKid, e.ids.refreshJti};
    assert CanSign(t, AccessKey, e.ids.accessKid, e.ids.accessJti);
    assert Happens(c, [Start, Apply(c, Start, e)], [e], 0);
  }

  /**
    Every record of every run expires with its refresh token exactly if the refresh lifetime is neither 0 nor 1
    second: then some write, the login `e` for one, computes a ttl of 0, which the store takes for "no expiry".
   */
  lemma ExpiryBoundExactly(c: Config, e: Event)
    requires IsFirstLogin(e)
    ensures (forall ss: seq<State>, es: seq<Event>, k: nat | UuidRun(c, ss, es) && k < |ss| ::
               AllExpireWithToken(ss[k].sessions))
              <==> c.refresh != 0 && c.refresh != 1
  {
    if c.refresh != 0 && c.refresh != 1 {
      forall ss: seq<State>, es: seq<Event>, k: nat | UuidRun(c, ss, es) && k < |ss|
        ensures AllExpireWithToken(ss[k].sessions)
      {
        RecordsExpireWithTokens(c, ss, es, k);
      }
    } else {
      var ss := [Start, Apply(c, Start, e)];
      FirstLoginRuns(c, e);
      var data := NewSessionData(c, Start, e.user, e.client, e.sid, e.ids);
      WriteOutcome(Start.sessions, e.sid, data, 1);
      assert e.sid in ss[1].sessions.records && !ExpiresWithToken(ss[1].sessions.records[e.sid]);
      assert !AllExpireWithToken(ss[1].sessions);
    }
  }

  ghost predicate ExpRefBounded(c: Config, s: State) {
    forall sid | sid in s.sessions.records :: s.sessions.records[sid].data.expRef <= NowSeconds(s.now) + c.refresh
  }

  lemma {:induction false} ExpRefStaysBounded(c: Config, ss: seq<State>, es: seq<Event>, k: nat)
    requires Run(c, ss, es) && k < |ss|
    ensures ExpRefBounded(c, ss[k])
  {
    if k > 0 {
      ExpRefStaysBounded(c, ss, es, k - 1);
      assert Happens(c, ss, es, k - 1);
      StepKeepsExpRefBounded(c, ss[k - 1], es[k - 1]);
    }
  }

  lemma StepKeepsExpRefBounded(c: Config, s: State, e: Event)
    requires Enabled(c, s, e) && ExpRefBounded(c, s)
    ensures ExpRefBounded(c, Apply(c, s, e))
  {
    match e
    case Login(user, client, sid, ids) =>
      assert NewSessionData(c, s, user, client, sid, ids).expRef == NowSeconds(s.now) + c.refresh;
    case RefreshTokens(sid, caller, ids) =>
      assert RefreshedData(c, s, s.sessions.records[sid].data, ids).expRef == NowSeconds(s.now) + c.refresh;
    case _ =>
  }

  /** With one lifetime and a clock that only advances, a session's refresh expiry never moves back. */
  lemma {:induction false} ExpRefNeverDecreases(c: Config, ss: seq<State>, es: seq<Event>, i: nat, k: nat, sid: string)
    requires Run(c, ss, es) && i <= k < |ss| && sid in ss[i].sessions.records
    ensures sid in ss[k].uuids
    ensures sid in ss[k].sessions.records ==>
              ss[i].sessions.records[sid].data.expRef <= ss[k].sessions.records[sid].data.expRef
  {
    if i == k {
      RunKeepsInv(c, ss, es, i);
    } else {
      ExpRefNeverDecreases(c, ss, es, i, k - 1, sid);
      assert Happens(c, ss, es, k - 1);
      ExpRefStaysBounded(c, ss, es, k - 1);
      RunKeepsInv(c, ss, es, k - 1);
      StepKeepsExpRef(c, ss[k - 1], es[k - 1], sid);
    }
  }

  lemma StepKeepsExpRef(c: Config, s: State, e: Event, sid: string)
    requires Inv(s) && Enabled(c, s, e) && ExpRefBounded(c, s) && sid in s.uuids
    ensures var t := Apply(c, s, e);
            && sid in t.uuids
            && (sid in t.sessions.records ==> sid in s.sessions.records)
            && (sid in t.sessions.records ==>
                  s.sessions.records[sid].data.expRef <= t.sessions.records[sid].data.expRef)
  {
    match e
    case Login(user, client, id, ids) => TokensKeep(c, WithUuid(s, id), SubjectOf(user), id, ids);
    case RefreshTokens(id, caller, ids) => TokensKeep(c, s, caller, id, ids);
    case _ =>
  }
}
