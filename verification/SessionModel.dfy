/**
  Sessions as the protocol means them: one map of records and one map of per-user indexes. The module also
  gives the key builders of `src/modules/auth/session.service.ts` and relates the flat string-keyed store to
  the two maps, so that what is proved of the maps holds of the store the program writes.
 */
module SessionModel {
  import opened Options
  import opened Uuids
  import opened DateHelpers
  import opened RedisStore

  datatype SessionData = SessionData(
    ip: string, userAgent: string, userId: string, email: string, os: string, browser: string,
    jwtAccessId: string, expAcc: int, jwtRefreshId: string, expRef: int, sessionId: string)

  datatype Stored = Stored(data: SessionData, expireAt: Option<int>)

  /** Every index held here is non-empty, as in Redis. */
  datatype Sessions = Sessions(records: map<string, Stored>, index: map<string, set<string>>)

  // ---------- What readers see ----------

  predicate Live(m: Sessions, sid: string, now: int) {
    sid in m.records && Unexpired(m.records[sid].expireAt, now)
  }

  function IndexOf(m: Sessions, uid: string): set<string> {
    if uid in m.index then m.index[uid] else {}
  }

  function IdSet(ids: seq<string>): set<string> {
    set id | id in ids
  }

  lemma IdSetGrows(ids: seq<string>, i: nat)
    requires i < |ids|
    ensures ids[i] in IdSet(ids) && IdSet(ids[..i + 1]) == IdSet(ids[..i]) + {ids[i]}
  {
    assert ids[..i + 1] == ids[..i] + [ids[i]];
  }

  /** `ids` lists `members`, each once. */
  ghost predicate IsListing(ids: seq<string>, members: set<string>) {
    && IdSet(ids) == members
    && (forall i, j | 0 <= i < j < |ids| :: ids[i] != ids[j])
  }

  /** What `getAllSessions` returns when Redis lists the index as `ids`: ids without a record are dropped. */
  function Collect(m: Sessions, ids: seq<string>, now: int): seq<SessionData> {
    if ids == [] then []
    else
      var last := |ids| - 1;
      Collect(m, ids[..last], now) + if Live(m, ids[last], now) then [m.records[ids[last]].data] else []
  }

  // ---------- What writers do ----------

  function PutIndex(m: Sessions, uid: string, members: set<string>): Sessions {
    m.(index := if members == {} then m.index - {uid} else m.index[uid := members])
  }

  /** `set` on a record, with the three cases of its ttl. */
  function PutRecord(m: Sessions, sid: string, data: SessionData, ttl: int, now: int): Sessions {
    if ttl < 0 then m
    else m.(records := m.records[sid := Stored(data, if ttl == 0 then None else Some(now + ttl * 1000))])
  }

  function StoreSession(m: Sessions, data: SessionData, sid: string, exp: int, now: int): Sessions {
    var m' := PutRecord(m, sid, data, ConvertTimeStampToSeconds(exp, now), now);
    PutIndex(m', data.userId, IndexOf(m', data.userId) + {sid})
  }

  function UpdateSession(m: Sessions, data: SessionData, now: int): Sessions {
    PutRecord(m, data.sessionId, data, ConvertTimeStampToSeconds(data.expRef, now), now)
  }

  /** The record of `sid` goes, and `sid` leaves the index of the user whose id is `sid`: not its owner's. */
  function RemoveSession(m: Sessions, sid: string): Sessions {
    PutIndex(m.(records := m.records - {sid}), sid, IndexOf(m, sid) - {sid})
  }

  /** The records of `sids` go, and `sids` leave the index of `uid`. */
  function RemoveSessions(m: Sessions, uid: string, sids: set<string>): Sessions {
    PutIndex(m.(records := m.records - sids), uid, IndexOf(m, uid) - sids)
  }

  lemma RemoveNoSessions(m: Sessions, uid: string)
    requires uid in m.index ==> m.index[uid] != {}
    ensures RemoveSessions(m, uid, {}) == m
  {
    assert m.records - {} == m.records;
    if uid in m.index {
      assert m.index[uid] - {} == m.index[uid];
      assert m.index[uid := m.index[uid]] == m.index;
    } else {
      assert m.index - {uid} == m.index;
    }
  }

  /** Removing ids one at a time removes the whole set of them. */
  lemma RemoveSessionsStep(m: Sessions, uid: string, sids: set<string>, sid: string)
    ensures var n := RemoveSessions(m, uid, sids);
            var n' := n.(records := n.records - {sid});
            PutIndex(n', uid, IndexOf(n', uid) - {sid}) == RemoveSessions(m, uid, sids + {sid})
  {
    assert m.records - sids - {sid} == m.records - (sids + {sid});
    assert IndexOf(m, uid) - sids - {sid} == IndexOf(m, uid) - (sids + {sid});
    var n := RemoveSessions(m, uid, sids);
    assert IndexOf(n, uid) == IndexOf(m, uid) - sids;
    var rest := IndexOf(m, uid) - (sids + {sid});
    if rest == {} {
      assert n.index - {uid} == m.index - {uid};
    } else {
      assert n.index[uid := rest] == m.index[uid := rest];
    }
  }

  // ---------- Key builders ----------

  function SessionKey(sid: string): string {
    "session:" + sid
  }

  function UserSessionsKey(uid: string): string {
    "session:user:" + uid
  }

  lemma SessionKeyInjective(a: string, b: string)
    ensures SessionKey(a) == SessionKey(b) <==> a == b
  {
    assert SessionKey(a)[8..] == a && SessionKey(b)[8..] == b;
  }

  lemma UserSessionsKeyInjective(a: string, b: string)
    ensures UserSessionsKey(a) == UserSessionsKey(b) <==> a == b
  {
    assert UserSessionsKey(a)[13..] == a && UserSessionsKey(b)[13..] == b;
  }

  /** A record key and an index key collide on exactly one kind of session id, and no UUID is of that kind. */
  lemma KeysCollide(sid: string, uid: string)
    ensures SessionKey(sid) == UserSessionsKey(uid) <==> sid == "user:" + uid
    ensures IsUuid(sid) ==> SessionKey(sid) != UserSessionsKey(uid)
  {
    assert UserSessionsKey(uid) == SessionKey("user:" + uid);
    SessionKeyInjective(sid, "user:" + uid);
    if IsUuid(sid) {
      assert IsHex(sid[0]);
      assert ("user:" + uid)[0] == 'u';
    }
  }

  /** The user whose index key is the record key of `sid`, if it is one's. */
  function IndexNamed(sid: string): Option<string> {
    if |sid| >= 5 && sid[..5] == "user:" then Some(sid[5..]) else None
  }

  lemma IndexNamedExactly(sid: string, uid: string)
    ensures IndexNamed(sid) == Some(uid) <==> SessionKey(sid) == UserSessionsKey(uid)
    ensures IsUuid(sid) ==> IndexNamed(sid) == None
  {
    KeysCollide(sid, uid);
    assert ("user:" + uid)[..5] == "user:" && ("user:" + uid)[5..] == uid;
    if IndexNamed(sid).Some? {
      assert sid == "user:" + sid[5..];
      KeysCollide(sid, sid[5..]);
    }
  }

  /** The record key of `sid` holds a set: it is the key of an index. */
  predicate HoldsIndex(m: Sessions, sid: string) {
    IndexNamed(sid).Some? && IndexOf(m, IndexNamed(sid).value) != {}
  }

  /** `del` on the record key of any `sid`: a record goes, or the index whose key it is. */
  function DeleteKey(m: Sessions, sid: string): Sessions {
    var n := m.(records := m.records - {sid});
    if IndexNamed(sid).Some? then PutIndex(n, IndexNamed(sid).value, {}) else n
  }

  // ---------- The flat store represents the two maps ----------

  predicate IsRecordKey(key: string) {
    |key| >= 8 && key == SessionKey(key[8..]) && IsUuid(key[8..])
  }

  predicate IsIndexKey(key: string) {
    |key| >= 13 && key == UserSessionsKey(key[13..]) && IsUuid(key[13..])
  }

  ghost predicate RecordsAgree(db: Db<SessionData>, m: Sessions) {
    && (forall sid :: sid in m.records <==> IsUuid(sid) && SessionKey(sid) in db)
    && (forall sid | sid in m.records ::
          db[SessionKey(sid)] == Text(m.records[sid].data, m.records[sid].expireAt))
  }

  ghost predicate IndexesAgree(db: Db<SessionData>, m: Sessions) {
    && (forall uid :: uid in m.index <==> IsUuid(uid) && UserSessionsKey(uid) in db)
    && (forall uid | uid in m.index :: m.index[uid] != {} && db[UserSessionsKey(uid)] == Members(m.index[uid]))
    && (forall uid | uid in m.index :: AllUuids(m.index[uid]))
  }

  /** `db` holds the records and indexes of `m` and nothing else. */
  ghost predicate Represents(db: Db<SessionData>, m: Sessions) {
    && RecordsAgree(db, m)
    && IndexesAgree(db, m)
    && OnlyKnownKeys(db)
  }

  ghost predicate OnlyKnownKeys(db: Db<SessionData>) {
    forall key | key in db :: IsRecordKey(key) || IsIndexKey(key)
  }

  /** At most one pair of maps is represented by a store. */
  lemma RepresentsUnique(db: Db<SessionData>, m: Sessions, n: Sessions)
    requires Represents(db, m) && Represents(db, n)
    ensures m == n
  {
    assert m.records.Keys == n.records.Keys;
    forall sid | sid in m.records ensures m.records[sid] == n.records[sid] {
      assert sid in n.records;
    }
    assert m.records == n.records;
    assert m.index.Keys == n.index.Keys;
    forall uid | uid in m.index ensures m.index[uid] == n.index[uid] {
      assert uid in n.index;
    }
    assert m.index == n.index;
  }

  lemma EmptyRepresents()
    ensures Represents(map[], Sessions(map[], map[]))
  {
  }

  ghost predicate SameEntry(db: Db<SessionData>, db': Db<SessionData>, key: string) {
    if key in db then key in db' && db'[key] == db[key] else key !in db'
  }

  lemma KnownKeysStay(db: Db<SessionData>, db': Db<SessionData>, changed: string)
    requires OnlyKnownKeys(db) && (IsRecordKey(changed) || IsIndexKey(changed))
    requires forall key | key != changed :: SameEntry(db, db', key)
    ensures OnlyKnownKeys(db')
  {
    forall key | key in db' ensures IsRecordKey(key) || IsIndexKey(key) {
      assert key != changed ==> SameEntry(db, db', key);
    }
  }

  function WithRecord(m: Sessions, sid: string, entry: Option<Stored>): Sessions {
    m.(records := if entry.None? then m.records - {sid} else m.records[sid := entry.value])
  }

  lemma RecordsFollow(db: Db<SessionData>, db': Db<SessionData>, m: Sessions, sid: string, entry: Option<Stored>)
    requires RecordsAgree(db, m) && IsUuid(sid)
    requires forall key | key != SessionKey(sid) :: SameEntry(db, db', key)
    requires entry.None? ==> SessionKey(sid) !in db'
    requires entry.Some? ==>
               SessionKey(sid) in db' && db'[SessionKey(sid)] == Text(entry.value.data, entry.value.expireAt)
    ensures RecordsAgree(db', WithRecord(m, sid, entry))
  {
    var m' := WithRecord(m, sid, entry);
    forall s
      ensures s in m'.records <==> IsUuid(s) && SessionKey(s) in db'
      ensures s in m'.records ==> db'[SessionKey(s)] == Text(m'.records[s].data, m'.records[s].expireAt)
    {
      if s != sid {
        SessionKeyInjective(s, sid);
        assert SameEntry(db, db', SessionKey(s));
      }
    }
  }

  lemma IndexesStay(db: Db<SessionData>, db': Db<SessionData>, m: Sessions, sid: string)
    requires IndexesAgree(db, m) && IsUuid(sid)
    requires forall key | key != SessionKey(sid) :: SameEntry(db, db', key)
    ensures IndexesAgree(db', m)
  {
    forall uid ensures SameEntry(db, db', UserSessionsKey(uid)) {
      KeysCollide(sid, uid);
    }
  }

  lemma IndexesFollow(db: Db<SessionData>, db': Db<SessionData>, m: Sessions, uid: string, members: set<string>)
    requires IndexesAgree(db, m) && IsUuid(uid) && AllUuids(members)
    requires forall key | key != UserSessionsKey(uid) :: SameEntry(db, db', key)
    requires members == {} ==> UserSessionsKey(uid) !in db'
    requires members != {} ==> UserSessionsKey(uid) in db' && db'[UserSessionsKey(uid)] == Members(members)
    ensures IndexesAgree(db', PutIndex(m, uid, members))
  {
    var m' := PutIndex(m, uid, members);
    forall u
      ensures u in m'.index <==> IsUuid(u) && UserSessionsKey(u) in db'
      ensures u in m'.index ==>
        m'.index[u] != {} && db'[UserSessionsKey(u)] == Members(m'.index[u]) && AllUuids(m'.index[u])
    {
      if u != uid {
        UserSessionsKeyInjective(u, uid);
        assert SameEntry(db, db', UserSessionsKey(u));
      }
    }
  }

  lemma RecordsStay(db: Db<SessionData>, db': Db<SessionData>, m: Sessions, uid: string)
    requires RecordsAgree(db, m)
    requires forall key | key != UserSessionsKey(uid) :: SameEntry(db, db', key)
    ensures RecordsAgree(db', m)
  {
    forall sid | IsUuid(sid) ensures SameEntry(db, db', SessionKey(sid)) {
      KeysCollide(sid, uid);
    }
  }

  /** A command on one record key changes that record of the maps and nothing else. */
  lemma RecordWrite(db: Db<SessionData>, db': Db<SessionData>, m: Sessions, sid: string, entry: Option<Stored>)
    requires Represents(db, m) && IsUuid(sid)
    requires forall key | key != SessionKey(sid) :: SameEntry(db, db', key)
    requires entry.None? ==> SessionKey(sid) !in db'
    requires entry.Some? ==>
               SessionKey(sid) in db' && db'[SessionKey(sid)] == Text(entry.value.data, entry.value.expireAt)
    ensures Represents(db', WithRecord(m, sid, entry))
  {
    RecordsFollow(db, db', m, sid, entry);
    IndexesStay(db, db', m, sid);
    assert SessionKey(sid)[8..] == sid;
    KnownKeysStay(db, db', SessionKey(sid));
  }

  /** A command on one index key changes that index of the maps and nothing else. */
  lemma IndexWrite(db: Db<SessionData>, db': Db<SessionData>, m: Sessions, uid: string, members: set<string>)
    requires Represents(db, m) && IsUuid(uid) && AllUuids(members)
    requires forall key | key != UserSessionsKey(uid) :: SameEntry(db, db', key)
    requires members == {} ==> UserSessionsKey(uid) !in db'
    requires members != {} ==> UserSessionsKey(uid) in db' && db'[UserSessionsKey(uid)] == Members(members)
    ensures Represents(db', PutIndex(m, uid, members))
  {
    IndexesFollow(db, db', m, uid, members);
    RecordsStay(db, db', m, uid);
    assert UserSessionsKey(uid)[13..] == uid;
    KnownKeysStay(db, db', UserSessionsKey(uid));
  }

  lemma SetRepresents(db: Db<SessionData>, m: Sessions, sid: string, data: SessionData, ttl: int, now: int)
    requires Represents(db, m) && IsUuid(sid)
    ensures Represents(SetOp(db, SessionKey(sid), data, Some(ttl), now), PutRecord(m, sid, data, ttl, now))
  {
    if ttl >= 0 {
      var stored := Stored(data, if ttl == 0 then None else Some(now + ttl * 1000));
      RecordWrite(db, SetOp(db, SessionKey(sid), data, Some(ttl), now), m, sid, Some(stored));
    }
  }

  lemma DelRepresents(db: Db<SessionData>, m: Sessions, sid: string)
    requires Represents(db, m) && IsUuid(sid)
    ensures Represents(db - {SessionKey(sid)}, m.(records := m.records - {sid}))
  {
    RecordWrite(db, db - {SessionKey(sid)}, m, sid, None);
  }

  /** A key built from anything but a UUID as the user's id, such as the text "undefined", is never in the store. */
  lemma OnlyUuidsAreIndexed(db: Db<SessionData>, m: Sessions, uid: string)
    requires Represents(db, m)
    ensures uid in m.index <==> UserSessionsKey(uid) in db
    ensures uid in m.index ==> IsUuid(uid)
  {
    if !IsUuid(uid) {
      ForeignIdIsHarmless(db, m, uid, 0);
    }
  }

  /** What the set commands see and do to the index key of any user id, a missing one included. */
  lemma SmembersRepresents(db: Db<SessionData>, m: Sessions, uid: string, now: int)
    requires Represents(db, m)
    ensures SmembersOp(db, UserSessionsKey(uid), now) == Value(IndexOf(m, uid))
    ensures AllUuids(IndexOf(m, uid)) && (uid in m.index ==> m.index[uid] != {})
  {
    OnlyUuidsAreIndexed(db, m, uid);
  }

  lemma SaddRepresents(db: Db<SessionData>, m: Sessions, uid: string, member: string, now: int)
    requires Represents(db, m) && IsUuid(uid) && IsUuid(member)
    ensures Represents(SaddOp(db, UserSessionsKey(uid), member, now), PutIndex(m, uid, IndexOf(m, uid) + {member}))
  {
    SmembersRepresents(db, m, uid, now);
    IndexWrite(db, SaddOp(db, UserSessionsKey(uid), member, now), m, uid, IndexOf(m, uid) + {member});
  }

  lemma SremRepresents(db: Db<SessionData>, m: Sessions, uid: string, member: string, now: int)
    requires Represents(db, m)
    ensures Represents(SremOp(db, UserSessionsKey(uid), member, now), PutIndex(m, uid, IndexOf(m, uid) - {member}))
  {
    SmembersRepresents(db, m, uid, now);
    OnlyUuidsAreIndexed(db, m, uid);
    if !IsUuid(uid) {
      assert m.index - {uid} == m.index;
      return;
    }
    IndexWrite(db, SremOp(db, UserSessionsKey(uid), member, now), m, uid, IndexOf(m, uid) - {member});
  }

  lemma GetRepresents(db: Db<SessionData>, m: Sessions, sid: string, now: int)
    requires Represents(db, m) && IsUuid(sid)
    ensures GetOp(db, SessionKey(sid), now) == Value(if Live(m, sid, now) then Some(m.records[sid].data) else None)
  {
    assert sid in m.records <==> SessionKey(sid) in db;
  }

  /**
    A session id that is not a UUID names no record and no index of the program's own: at most it names an
    index by its full key, and then reading it as a record fails.
   */
  lemma ForeignIdIsHarmless(db: Db<SessionData>, m: Sessions, sid: string, now: int)
    requires Represents(db, m) && !IsUuid(sid)
    ensures sid !in m.records && sid !in m.index
    ensures GetOp(db, SessionKey(sid), now) == WrongType || SessionKey(sid) !in db
    ensures UserSessionsKey(sid) !in db
    ensures RemoveSession(m, sid) == m
  {
    assert SessionKey(sid)[8..] == sid;
    if UserSessionsKey(sid) in db {
      assert UserSessionsKey(sid)[13..] == sid;
      KeysCollide(UserSessionsKey(sid)[8..], sid);
      assert false;
    }
    assert m.records - {sid} == m.records;
    assert m.index - {sid} == m.index;
    if SessionKey(sid) in db {
      assert IsIndexKey(SessionKey(sid));
      var uid := SessionKey(sid)[13..];
      assert uid in m.index;
    }
  }

  /** What a read of the record key of any id finds: an index's key is the wrong type, and no record hides behind it. */
  lemma AnyGetRepresents(db: Db<SessionData>, m: Sessions, sid: string, now: int)
    requires Represents(db, m)
    ensures GetOp(db, SessionKey(sid), now) ==
              if HoldsIndex(m, sid) then WrongType
              else Value(if Live(m, sid, now) then Some(m.records[sid].data) else None)
  {
    if IsUuid(sid) {
      IndexNamedExactly(sid, "");
      GetRepresents(db, m, sid, now);
    } else {
      ForeignIdIsHarmless(db, m, sid, now);
      if IndexNamed(sid).Some? {
        var uid := IndexNamed(sid).value;
        IndexNamedExactly(sid, uid);
        OnlyUuidsAreIndexed(db, m, uid);
      } else if SessionKey(sid) in db {
        assert IsIndexKey(SessionKey(sid));
        IndexNamedExactly(sid, SessionKey(sid)[13..]);
      }
    }
  }

  /** Deleting the index key of any user id empties that index. */
  lemma DelIndexRepresents(db: Db<SessionData>, m: Sessions, uid: string)
    requires Represents(db, m)
    ensures Represents(db - {UserSessionsKey(uid)}, PutIndex(m, uid, {}))
  {
    OnlyUuidsAreIndexed(db, m, uid);
    if IsUuid(uid) {
      IndexWrite(db, db - {UserSessionsKey(uid)}, m, uid, {});
    } else {
      assert db - {UserSessionsKey(uid)} == db && m.index - {uid} == m.index;
    }
  }

  /** Deleting the record key of any id does what `DeleteKey` says, be it a record's key, an index's or nobody's. */
  lemma AnyDelRepresents(db: Db<SessionData>, m: Sessions, sid: string)
    requires Represents(db, m)
    ensures Represents(db - {SessionKey(sid)}, DeleteKey(m, sid))
  {
    if IsUuid(sid) {
      IndexNamedExactly(sid, "");
      DelRepresents(db, m, sid);
    } else {
      ForeignIdIsHarmless(db, m, sid, 0);
      assert m.records - {sid} == m.records;
      if IndexNamed(sid).Some? {
        IndexNamedExactly(sid, IndexNamed(sid).value);
        DelIndexRepresents(db, m, IndexNamed(sid).value);
      } else {
        AnyGetRepresents(db, m, sid, 0);
        assert db - {SessionKey(sid)} == db;
      }
    }
  }
}
