/**
  What interleaved requests do to the store: the commands they issue keep the flat key space in step with the two
  maps, and when the expiry of a record or a session's refresh expiry is not what a lone request would leave.
 */
module InterleavedStore {
  import opened Options
  import opened Uuids
  import opened DateHelpers
  import opened RedisStore
  import opened SessionModel
  import AuthSystem
  import opened SessionTheorems
  import opened Interleaving

  // ---------- Writes ----------

  predicate IsWrite(step: Step) {
    step.LoginWrites? || step.RefreshWrites?
  }

  /** How far from now, in milliseconds, the refresh expiry is that the step writes. */
  ghost function Distance(m: Moment, step: Step): int
    requires Possible(m, step) && IsWrite(step)
  {
    m.flights[step.f].data.expRef * 1000 - m.now
  }

  /** A record found after a step was there before, or the step has just written it. */
  lemma RecordBefore(c: AuthSystem.Config, m: Moment, step: Step, sid: string)
    requires Possible(m, step) && sid in Next(c, m, step).sessions.records
    ensures var stored := Next(c, m, step).sessions.records[sid];
            || (sid in m.sessions.records && m.sessions.records[sid] == stored)
            || (IsWrite(step) && m.flights[step.f].data == stored.data && stored.data.sessionId == sid
                && Distance(m, step) > -1000)
  {
    if IsWrite(step) {
      WriteOutcome(m.sessions, m.flights[step.f].data.sessionId, m.flights[step.f].data, m.now);
    }
  }

  // ---------- The flat key space under interleaved commands ----------

  /** The command a step sends to the store; the other steps only read, sign or wait. */
  ghost function Commanded(db: Db<SessionData>, m: Moment, step: Step): Db<SessionData>
    requires Possible(m, step)
  {
    match step
    case LoginWrites(f) => Written(db, m.flights[f].data, m.now)
    case RefreshWrites(f) => Written(db, m.flights[f].data, m.now)
    case LoginIndexes(f) => SaddOp(db, UserSessionsKey(m.flights[f].uid), m.flights[f].sid, m.now)
    case DeletesRecord(f) => db - {SessionKey(m.flights[f].sids[0])}
    case RemovesFromIndex(f) => SremOp(db, UserSessionsKey(m.flights[f].uid), m.flights[f].sids[0], m.now)
    case DropsIndex(f) => db - {UserSessionsKey(m.flights[f].uid)}
    case _ => db
  }

  function Written(db: Db<SessionData>, data: SessionData, now: int): Db<SessionData> {
    SetOp(db, SessionKey(data.sessionId), data, Some(ConvertTimeStampToSeconds(data.expRef, now)), now)
  }

  ghost predicate NamedByUuids(data: SessionData) {
    IsUuid(data.sessionId) && IsUuid(data.userId)
  }

  /** Records, and what logins and refreshes hold, are named by UUIDs; logouts may hold any text. */
  ghost predicate AllNamedByUuids(m: Moment) {
    && (forall sid | sid in m.sessions.records :: NamedByUuids(m.sessions.records[sid].data))
    && (forall f | f in m.flights && HasData(m.flights[f]) :: NamedByUuids(m.flights[f].data))
    && (forall f | f in m.flights && m.flights[f].LoginStored? :: IsUuid(m.flights[f].uid) && IsUuid(m.flights[f].sid))
  }

  lemma StepKeepsUuids(c: AuthSystem.Config, m: Moment, step: Step)
    requires AllNamedByUuids(m) && Possible(m, step)
    ensures AllNamedByUuids(Next(c, m, step))
  {
    var n := Next(c, m, step);
    forall sid | sid in n.sessions.records ensures NamedByUuids(n.sessions.records[sid].data) {
      RecordBefore(c, m, step, sid);
    }
  }

  /** Every step sends the store what it does to the maps. */
  lemma StepRepresents(c: AuthSystem.Config, db: Db<SessionData>, m: Moment, step: Step)
    requires Represents(db, m.sessions) && AllNamedByUuids(m) && Possible(m, step)
    ensures Represents(Commanded(db, m, step), Next(c, m, step).sessions)
  {
    match step
    case LoginWrites(f) => WrittenRepresents(db, m.sessions, m.flights[f].data, m.now);
    case RefreshWrites(f) => WrittenRepresents(db, m.sessions, m.flights[f].data, m.now);
    case LoginIndexes(f) => SaddRepresents(db, m.sessions, m.flights[f].uid, m.flights[f].sid, m.now);
    case DeletesRecord(f) => AnyDelRepresents(db, m.sessions, m.flights[f].sids[0]);
    case RemovesFromIndex(f) => SremRepresents(db, m.sessions, m.flights[f].uid, m.flights[f].sids[0], m.now);
    case DropsIndex(f) => DelIndexRepresents(db, m.sessions, m.flights[f].uid);
    case _ =>
  }

  lemma WrittenRepresents(db: Db<SessionData>, m: Sessions, data: SessionData, now: int)
    requires Represents(db, m) && IsUuid(data.sessionId)
    ensures Represents(Written(db, data, now), SessionModel.UpdateSession(m, data, now))
  {
    SetRepresents(db, m, data.sessionId, data, ConvertTimeStampToSeconds(data.expRef, now), now);
  }

  /** `dbs[k]` is the store after the first `k` steps have sent their commands. */
  ghost predicate StoreRun(dbs: seq<Db<SessionData>>, c: AuthSystem.Config, ms: seq<Moment>, steps: seq<Step>)
    requires |ms| == |steps| + 1
  {
    && |dbs| == |ms| && dbs[0] == map[]
    && forall i | 0 <= i < |steps| :: Happens(c, ms, steps, i) && dbs[i + 1] == Commanded(dbs[i], ms[i], steps[i])
  }

  /** However the commands of requests interleave, the store holds the records and indexes of the maps. */
  lemma {:induction false} StoreFollowsMaps(c: AuthSystem.Config, ms: seq<Moment>, steps: seq<Step>,
                                            dbs: seq<Db<SessionData>>, k: nat)
    requires Follows(c, ms, steps) && Starts(ms[0]) && StoreRun(dbs, c, ms, steps) && k < |ms|
    ensures Represents(dbs[k], ms[k].sessions) && AllNamedByUuids(ms[k])
    decreases k
  {
    if k == 0 {
      EmptyRepresents();
    } else {
      StoreFollowsMaps(c, ms, steps, dbs, k - 1);
      assert Happens(c, ms, steps, k - 1);
      StepKeepsUuids(c, ms[k - 1], steps[k - 1]);
      StepRepresents(c, dbs[k - 1], ms[k - 1], steps[k - 1]);
    }
  }

  /** Requests of one session that start with a read go on exactly where the store gives the reply they go on from. */
  lemma ReadsFindWhatIsStored(db: Db<SessionData>, m: Moment, f: nat, id: string)
    requires Represents(db, m.sessions) && f !in m.flights
    ensures var reply := GetOp(db, SessionKey(id), m.now);
            && (Possible(m, RefreshReads(f, id)) <==> reply.Value? && reply.value.Some?)
            && (Possible(m, RefreshReads(f, id)) ==> reply.value == Some(m.sessions.records[id].data))
            && (Possible(m, LogoutReads(f, id)) <==> reply.Value?)
  {
    AnyGetRepresents(db, m.sessions, id, m.now);
  }

  /** A logout everywhere goes on with a listing of the index that the store answers with; a check sees the same. */
  lemma ListingsFindWhatIsStored(db: Db<SessionData>, m: Moment, f: nat, uid: string, sids: seq<string>)
    requires Represents(db, m.sessions) && f !in m.flights
    ensures var reply := SmembersOp(db, UserSessionsKey(uid), m.now);
            && reply == Value(IndexOf(m.sessions, uid))
            && (Possible(m, LogoutAllStarts(f, uid, sids)) <==> IsListing(sids, reply.value))
  {
    SmembersRepresents(db, m.sessions, uid, m.now);
  }

  // ---------- Expiry of records under interleaved writes ----------

  /** The step stores no record within a second of the expiry of its refresh token. */
  ghost predicate WritesInTime(m: Moment, step: Step)
    requires Possible(m, step)
  {
    IsWrite(step) ==> !(-1000 < Distance(m, step) < 1000)
  }

  lemma StepKeepsExpiryExactly(c: AuthSystem.Config, m: Moment, step: Step)
    requires AllExpireWithToken(m.sessions) && Possible(m, step)
    ensures AllExpireWithToken(Next(c, m, step).sessions) <==> WritesInTime(m, step)
  {
    var n := Next(c, m, step);
    if IsWrite(step) {
      var data := m.flights[step.f].data;
      WriteOutcome(m.sessions, data.sessionId, data, m.now);
      if !WritesInTime(m, step) {
        assert n.sessions.records[data.sessionId].expireAt == None;
      }
    }
  }

  ghost predicate AllInTime(c: AuthSystem.Config, ms: seq<Moment>, steps: seq<Step>)
    requires |ms| == |steps| + 1
  {
    forall i | 0 <= i < |steps| :: InTimeAt(c, ms, steps, i)
  }

  ghost predicate InTimeAt(c: AuthSystem.Config, ms: seq<Moment>, steps: seq<Step>, i: nat)
    requires |ms| == |steps| + 1 && i < |steps|
  {
    Happens(c, ms, steps, i) && WritesInTime(ms[i], steps[i])
  }

  ghost predicate EverExpiring(ms: seq<Moment>) {
    forall k | 0 <= k < |ms| :: AllExpireWithToken(ms[k].sessions)
  }

  lemma {:induction false} InTimeSoFar(c: AuthSystem.Config, ms: seq<Moment>, steps: seq<Step>, k: nat)
    requires Follows(c, ms, steps) && Starts(ms[0]) && AllInTime(c, ms, steps) && k < |ms|
    ensures AllExpireWithToken(ms[k].sessions)
    decreases k
  {
    if k > 0 {
      InTimeSoFar(c, ms, steps, k - 1);
      assert InTimeAt(c, ms, steps, k - 1);
      StepKeepsExpiryExactly(c, ms[k - 1], steps[k - 1]);
    }
  }

  /**
    Interleaved requests leave a record for ever, whatever the lifetimes, exactly if one of them writes within a second
    of its refresh token's expiry; otherwise every record expires with its refresh token.
   */
  lemma RecordsExpireExactly(c: AuthSystem.Config, ms: seq<Moment>, steps: seq<Step>)
    requires Follows(c, ms, steps) && Starts(ms[0])
    ensures EverExpiring(ms) <==> AllInTime(c, ms, steps)
  {
    if AllInTime(c, ms, steps) {
      forall k | 0 <= k < |ms| ensures AllExpireWithToken(ms[k].sessions) {
        InTimeSoFar(c, ms, steps, k);
      }
    } else {
      var i :| 0 <= i < |steps| && !InTimeAt(c, ms, steps, i);
      assert Happens(c, ms, steps, i);
      if AllExpireWithToken(ms[i].sessions) {
        StepKeepsExpiryExactly(c, ms[i], steps[i]);
      }
    }
  }

  /** It happens with any lifetime: a refresh signs, and its write waits until the token expires. */
  lemma LateWriteStays(c: AuthSystem.Config, m: Moment, f: nat, sid: string, wait: nat) returns (ms: seq<Moment>)
    requires CanWrite(m, f, sid) && m.flights[f].RefreshSigned? && m.flights[f].data.expRef * 1000 - m.now == wait
    ensures Follows(c, ms, [TimePasses(wait), RefreshWrites(f)]) && ms[0] == m
    ensures sid in ms[2].sessions.records && ms[2].sessions.records[sid].expireAt == None
  {
    var m1 := Next(c, m, TimePasses(wait));
    var m2 := Next(c, m1, RefreshWrites(f));
    WriteOutcome(m1.sessions, sid, m.flights[f].data, m1.now);
    ms := [m, m1, m2];
    assert Happens(c, ms, [TimePasses(wait), RefreshWrites(f)], 0);
    assert Happens(c, ms, [TimePasses(wait), RefreshWrites(f)], 1);
  }

  // ---------- Refresh expiry under interleaved writes ----------

  function ExpRefOf(m: Moment, sid: string): int
    requires sid in m.sessions.records
  {
    m.sessions.records[sid].data.expRef
  }

  /** From the i-th moment to the k-th the session's refresh expiry has not moved back. */
  ghost predicate NotBack(ms: seq<Moment>, i: nat, k: nat, sid: string)
    requires i <= k < |ms|
  {
    sid in ms[i].sessions.records && sid in ms[k].sessions.records ==> ExpRefOf(ms[i], sid) <= ExpRefOf(ms[k], sid)
  }

  /** What the j-th step stores, if it stores anything, is no older than what was stored of the session before. */
  ghost predicate StoresNewest(ms: seq<Moment>, steps: seq<Step>, j: nat)
    requires j < |steps| < |ms| && Possible(ms[j], steps[j])
  {
    IsWrite(steps[j]) && Distance(ms[j], steps[j]) > -1000 ==>
      var data := ms[j].flights[steps[j].f].data;
      forall i | 0 <= i <= j && data.sessionId in ms[i].sessions.records ::
        ExpRefOf(ms[i], data.sessionId) <= data.expRef
  }

  ghost predicate AllStoreNewest(c: AuthSystem.Config, ms: seq<Moment>, steps: seq<Step>)
    requires |ms| == |steps| + 1
  {
    forall j | 0 <= j < |steps| :: Happens(c, ms, steps, j) && StoresNewest(ms, steps, j)
  }

  lemma {:induction false} NotBackSoFar(c: AuthSystem.Config, ms: seq<Moment>, steps: seq<Step>, i: nat, k: nat,
                                        sid: string)
    requires Follows(c, ms, steps) && AllStoreNewest(c, ms, steps) && i <= k < |ms|
    ensures NotBack(ms, i, k, sid)
    decreases k
  {
    if i < k && sid in ms[k].sessions.records {
      NotBackSoFar(c, ms, steps, i, k - 1, sid);
      assert Happens(c, ms, steps, k - 1) && StoresNewest(ms, steps, k - 1);
      RecordBefore(c, ms[k - 1], steps[k - 1], sid);
    }
  }

  lemma OlderWriteMovesBack(c: AuthSystem.Config, ms: seq<Moment>, steps: seq<Step>, j: nat)
    returns (i: nat, sid: string)
    requires Follows(c, ms, steps) && j < |steps| && Happens(c, ms, steps, j) && !StoresNewest(ms, steps, j)
    ensures i <= j && !NotBack(ms, i, j + 1, sid)
  {
    var data := ms[j].flights[steps[j].f].data;
    sid := data.sessionId;
    i :| 0 <= i <= j && sid in ms[i].sessions.records && ExpRefOf(ms[i], sid) > data.expRef;
    WriteOutcome(ms[j].sessions, sid, data, ms[j].now);
  }

  ghost predicate NeverBack(ms: seq<Moment>) {
    forall i: nat, k: nat, sid | i <= k < |ms| :: NotBack(ms, i, k, sid)
  }

  /**
    Along a run of interleaved requests a session's refresh expiry never moves back exactly if no request stores one
    that is older than what has been stored for the session: a refresh that signs first and writes last moves it back.
   */
  lemma NeverBackExactly(c: AuthSystem.Config, ms: seq<Moment>, steps: seq<Step>)
    requires Follows(c, ms, steps)
    ensures NeverBack(ms) <==> AllStoreNewest(c, ms, steps)
  {
    if AllStoreNewest(c, ms, steps) {
      forall i: nat, k: nat, sid | i <= k < |ms| ensures NotBack(ms, i, k, sid) {
        NotBackSoFar(c, ms, steps, i, k, sid);
      }
    } else {
      var j :| 0 <= j < |steps| && !(Happens(c, ms, steps, j) && StoresNewest(ms, steps, j));
      assert Happens(c, ms, steps, j);
      var i, sid := OlderWriteMovesBack(c, ms, steps, j);
    }
  }

  /** It happens: of two refreshes of a session the one that signed first writes last. */
  lemma OlderRefreshWritesLast(c: AuthSystem.Config, m: Moment, f: nat, g: nat, sid: string) returns (ms: seq<Moment>)
    requires f != g && CanWrite(m, f, sid) && CanWrite(m, g, sid)
    requires m.flights[f].RefreshSigned? && m.flights[g].RefreshSigned?
    requires m.flights[f].data.expRef < m.flights[g].data.expRef
    ensures Follows(c, ms, [RefreshWrites(g), RefreshWrites(f)]) && ms[0] == m && !NotBack(ms, 1, 2, sid)
  {
    var m1 := Next(c, m, RefreshWrites(g));
    var m2 := Next(c, m1, RefreshWrites(f));
    WriteOutcome(m.sessions, sid, m.flights[g].data, m.now);
    WriteOutcome(m1.sessions, sid, m.flights[f].data, m1.now);
    ms := [m, m1, m2];
    assert Happens(c, ms, [RefreshWrites(g), RefreshWrites(f)], 0);
    assert Happens(c, ms, [RefreshWrites(g), RefreshWrites(f)], 1);
  }
}
