/** `src/modules/auth/session.service.ts`: the record and index commands each session operation issues. */
module SessionServices {
  import opened Options
  import opened Uuids
  import opened DateHelpers
  import opened RedisStore
  import opened SessionModel

  class SessionService {
    const cacheService: RedisService<SessionData>
    ghost var model: Sessions

    /** The store holds exactly the records and indexes of `model`. */
    ghost predicate Valid()
      reads this, cacheService
    {
      Represents(cacheService.db, model)
    }

    constructor (cacheService: RedisService<SessionData>)
      requires cacheService.db == map[]
      ensures this.cacheService == cacheService && Valid() && model == Sessions(map[], map[])
    {
      this.cacheService := cacheService;
      model := Sessions(map[], map[]);
      new;
      EmptyRepresents();
    }

    method StoreSession(userData: SessionData, sessionId: string, exp: int, now: int)
      requires Valid() && IsUuid(sessionId) && IsUuid(userData.userId)
      modifies this, cacheService
      ensures Valid() && model == SessionModel.StoreSession(old(model), userData, sessionId, exp, now)
    {
      var ttl := ConvertTimeStampToSeconds(exp, now);
      SetRepresents(cacheService.db, model, sessionId, userData, ttl, now);
      cacheService.Set(SessionKey(sessionId), userData, Some(ttl), now);
      model := PutRecord(model, sessionId, userData, ttl, now);
      SaddRepresents(cacheService.db, model, userData.userId, sessionId, now);
      var ok := cacheService.Sadd(UserSessionsKey(userData.userId), sessionId, now);
      model := PutIndex(model, userData.userId, IndexOf(model, userData.userId) + {sessionId});
    }

    method UpdateSession(userData: SessionData, now: int)
      requires Valid() && IsUuid(userData.sessionId)
      modifies this, cacheService
      ensures Valid() && model == SessionModel.UpdateSession(old(model), userData, now)
    {
      var ttl := ConvertTimeStampToSeconds(userData.expRef, now);
      SetRepresents(cacheService.db, model, userData.sessionId, userData, ttl, now);
      cacheService.Set(SessionKey(userData.sessionId), userData, Some(ttl), now);
      model := PutRecord(model, userData.sessionId, userData, ttl, now);
    }

    method CreateNewSession(userData: SessionData, now: int)
      requires Valid() && IsUuid(userData.sessionId) && IsUuid(userData.userId)
      modifies this, cacheService
      ensures Valid()
      ensures model == SessionModel.StoreSession(old(model), userData, userData.sessionId, userData.expRef, now)
    {
      StoreSession(userData, userData.sessionId, userData.expRef, now);
    }

    /** Any string is accepted; the answer is an error exactly when the key it builds holds a set. */
    method GetSessionById(sessionId: string, now: int) returns (reply: Reply<Option<SessionData>>)
      requires Valid()
      ensures reply == GetOp(cacheService.db, SessionKey(sessionId), now)
      ensures IsUuid(sessionId) ==> reply.Value?
      ensures reply.Value? ==>
        reply.value == if Live(model, sessionId, now) then Some(model.records[sessionId].data) else None
    {
      reply := cacheService.Get(SessionKey(sessionId), now);
      if IsUuid(sessionId) {
        GetRepresents(cacheService.db, model, sessionId, now);
      } else {
        ForeignIdIsHarmless(cacheService.db, model, sessionId, now);
      }
    }

    /** Any user id is accepted, a missing one as the text "undefined"; `ids` is the index as Redis listed it. */
    method GetAllSessions(userId: string, now: int) returns (sessions: seq<SessionData>)
      requires Valid()
      ensures exists ids :: IsListing(ids, IndexOf(model, userId)) && sessions == Collect(model, ids, now)
    {
      SmembersRepresents(cacheService.db, model, userId, now);
      var reply := cacheService.Smembers(UserSessionsKey(userId), now);
      var sessionIds := Listed(reply.value);
      sessions := [];
      for i := 0 to |sessionIds|
        invariant sessions == Collect(model, sessionIds[..i], now)
      {
        assert sessionIds[..i + 1][..i] == sessionIds[..i];
        var result := GetSessionById(sessionIds[i], now);
        if result.Value? && result.value.Some? {
          sessions := sessions + [result.value.value];
        } else {
          assert sessionIds[i] in IndexOf(model, userId);
        }
      }
      assert sessionIds[..|sessionIds|] == sessionIds;
    }

    /** Any string is accepted, since logout takes the id from a token it only decodes. */
    method RemoveSession(sessionId: string, now: int) returns (ok: bool)
      requires Valid()
      modifies this, cacheService
      ensures Valid() && model == SessionModel.RemoveSession(old(model), sessionId)
      ensures ok <==> GetOp(old(cacheService.db), SessionKey(sessionId), now).Value?
      ensures IsUuid(sessionId) ==> ok
    {
      var userData := cacheService.Get(SessionKey(sessionId), now);
      if !IsUuid(sessionId) {
        ForeignIdIsHarmless(cacheService.db, model, sessionId, now);
        assert SessionKey(sessionId) !in cacheService.db ==>
          cacheService.db - {SessionKey(sessionId)} == cacheService.db;
      } else {
        GetRepresents(cacheService.db, model, sessionId, now);
        DelRepresents(cacheService.db, model, sessionId);
      }
      if userData == WrongType {
        return false;
      }
      cacheService.Del(SessionKey(sessionId));
      ghost var afterDel := model.(records := model.records - {sessionId});
      if IsUuid(sessionId) {
        SremRepresents(cacheService.db, afterDel, sessionId, sessionId, now);
      }
      var removed := cacheService.Srem(UserSessionsKey(sessionId), sessionId, now);
      model := SessionModel.RemoveSession(model, sessionId);
      ok := true;
    }

    /** Bulk removal: of the listed ids (UUIDs, as the request's DTO demands) or of all the user's. */
    method RemoveAllSessions(userId: string, sessionIds: Option<seq<string>>, now: int)
      requires Valid()
      requires sessionIds.Some? ==> AllUuids(IdSet(sessionIds.value))
      modifies this, cacheService
      ensures Valid()
      ensures model == RemoveSessions(old(model), userId,
                if sessionIds.Some? then IdSet(sessionIds.value) else IndexOf(old(model), userId))
    {
      SmembersRepresents(cacheService.db, model, userId, now);
      var ids;
      if sessionIds.Some? {
        ids := sessionIds.value;
      } else {
        var reply := cacheService.Smembers(UserSessionsKey(userId), now);
        ids := Listed(reply.value);
      }
      RemoveNoSessions(model, userId);
      if |ids| == 0 {
        assert IdSet(ids) == {};
        return;
      }
      RemoveEach(userId, ids, now);
      SmembersRepresents(cacheService.db, model, userId, now);
      var sessionIdsAfter := cacheService.Smembers(UserSessionsKey(userId), now);
      if sessionIdsAfter.value == {} {
        OnlyUuidsAreIndexed(cacheService.db, model, userId);
        assert UserSessionsKey(userId) !in cacheService.db;
        assert cacheService.db - {UserSessionsKey(userId)} == cacheService.db;
        cacheService.Del(UserSessionsKey(userId));
      }
    }

    /** The removal loop. */
    method RemoveEach(userId: string, ids: seq<string>, now: int)
      requires Valid() && AllUuids(IdSet(ids))
      modifies this, cacheService
      ensures Valid() && model == RemoveSessions(old(model), userId, IdSet(ids))
    {
      SmembersRepresents(cacheService.db, model, userId, now);
      RemoveNoSessions(model, userId);
      assert IdSet(ids[..0]) == {};
      for i := 0 to |ids|
        invariant Valid() && model == RemoveSessions(old(model), userId, IdSet(ids[..i]))
      {
        IdSetGrows(ids, i);
        RemoveSessionsStep(old(model), userId, IdSet(ids[..i]), ids[i]);
        RemoveOwned(userId, ids[i], now);
      }
      assert ids[..|ids|] == ids;
    }

    /** One turn of the removal loop. */
    method RemoveOwned(userId: string, sessionId: string, now: int)
      requires Valid() && IsUuid(sessionId)
      modifies this, cacheService
      ensures Valid()
      ensures var n := old(model).(records := old(model).records - {sessionId});
              model == PutIndex(n, userId, IndexOf(n, userId) - {sessionId})
    {
      DelRepresents(cacheService.db, model, sessionId);
      cacheService.Del(SessionKey(sessionId));
      model := model.(records := model.records - {sessionId});
      SremRepresents(cacheService.db, model, userId, sessionId, now);
      var ok := cacheService.Srem(UserSessionsKey(userId), sessionId, now);
      model := PutIndex(model, userId, IndexOf(model, userId) - {sessionId});
    }

    /** `smembers` returns the members in an order of Redis's choosing. */
    static method Listed(members: set<string>) returns (ids: seq<string>)
      ensures IsListing(ids, members)
    {
      var pending := members;
      ids := [];
      while pending != {}
        invariant pending <= members
        invariant forall sid :: sid in ids <==> sid in members - pending
        invariant forall i, j | 0 <= i < j < |ids| :: ids[i] != ids[j]
        decreases pending
      {
        var sid :| sid in pending;
        assert sid !in ids;
        pending, ids := pending - {sid}, ids + [sid];
      }
    }
  }
}
