/**
  Sessions at the grain of single `await` points. A login or a refresh is in flight between its reads, its two
  signatures and its writes, a logout between the commands it issues one by one, and any number of them interleave
  with each other and with the clock. E-mail verification and password reset interleave as logins do.
 */
module Interleaving {
  import opened Options
  import opened Uuids
  import opened DateHelpers
  import opened SessionModel
  import opened Tokens
  import opened AuthSystem
  import opened SessionTheorems

  /** What one `signTokens` call returns, as far as sessions see it. */
  datatype Pair = Pair(sid: string, accessJti: string, refreshJti: string)

  /**
    Where a request stands: `data` is the record it will write, or read and will overwrite. A logout that is about to
    delete the record `sids[0]`, or to take `sids[0]` from the index of `uid`, goes on with the rest of `sids`; a bulk
    logout then looks whether the index is empty and deletes its key.
   */
  datatype Flight =
    | LoginHalfSigned(data: SessionData)
    | LoginSigned(data: SessionData)
    | LoginStored(uid: string, sid: string)
    | RefreshRead(data: SessionData)
    | RefreshHalfSigned(data: SessionData)
    | RefreshSigned(data: SessionData)
    | Deleting(uid: string, sids: seq<string>, bulk: bool)
    | Unindexing(uid: string, sids: seq<string>, bulk: bool)
    | Checking(uid: string)
    | Dropping(uid: string)

  /** `pairs` remembers every pair signed so far; `uuids` every session and token id drawn. */
  datatype Moment = Moment(
    now: int, sessions: Sessions, flights: map<nat, Flight>, uuids: set<string>, pairs: set<Pair>)

  datatype Step =
    | LoginSignsRefresh(f: nat, user: User, client: Client, sid: string, jti: string)
    | LoginSignsAccess(f: nat, jti: string)
    | LoginWrites(f: nat)
    | LoginIndexes(f: nat)
    | RefreshReads(f: nat, sid: string)
    | RefreshSignsRefresh(f: nat, jti: string)
    | RefreshSignsAccess(f: nat, jti: string)
    | RefreshWrites(f: nat)
    | LogoutReads(f: nat, sid: string)
    | LogoutSessionsStarts(f: nat, uid: string, sids: seq<string>)
    | LogoutAllStarts(f: nat, uid: string, sids: seq<string>)
    | DeletesRecord(f: nat)
    | RemovesFromIndex(f: nat)
    | ChecksIndex(f: nat)
    | DropsIndex(f: nat)
    | Fails(f: nat)
    | TimePasses(ms: nat)

  function PairOf(data: SessionData): Pair {
    Pair(data.sessionId, data.jwtAccessId, data.jwtRefreshId)
  }

  predicate In(m: Moment, f: nat) {
    f in m.flights
  }

  /** A login or refresh that has, or will have, a record to write. */
  predicate HasData(flight: Flight) {
    flight.LoginHalfSigned? || flight.LoginSigned? || IsRefresh(flight)
  }

  predicate IsRefresh(flight: Flight) {
    flight.RefreshRead? || flight.RefreshHalfSigned? || flight.RefreshSigned?
  }

  /**
    Drawn ids are new; each step continues a flight from where it stands. A refresh starts by finding its record, a
    logout everywhere by listing the index, a logout of some ids with a list its DTO has checked. A logout of one id,
    which may be any text, starts by reading the key it builds, and fails at once where that is the key of an index.
   */
  ghost predicate Possible(m: Moment, step: Step) {
    match step
    case LoginSignsRefresh(f, user, _, sid, jti) =>
      !In(m, f) && IsUuid(user.id) && IsUuid(sid) && sid !in m.uuids && jti !in m.uuids && sid != jti
    case LoginSignsAccess(f, jti) => In(m, f) && m.flights[f].LoginHalfSigned? && jti !in m.uuids
    case LoginWrites(f) => In(m, f) && m.flights[f].LoginSigned?
    case LoginIndexes(f) => In(m, f) && m.flights[f].LoginStored?
    case RefreshReads(f, sid) => !In(m, f) && Live(m.sessions, sid, m.now)
    case RefreshSignsRefresh(f, jti) => In(m, f) && m.flights[f].RefreshRead? && jti !in m.uuids
    case RefreshSignsAccess(f, jti) => In(m, f) && m.flights[f].RefreshHalfSigned? && jti !in m.uuids
    case RefreshWrites(f) => In(m, f) && m.flights[f].RefreshSigned?
    case LogoutReads(f, sid) => !In(m, f) && !HoldsIndex(m.sessions, sid)
    case LogoutSessionsStarts(f, _, sids) => !In(m, f) && AllUuids(IdSet(sids))
    case LogoutAllStarts(f, uid, sids) => !In(m, f) && IsListing(sids, IndexOf(m.sessions, uid))
    case DeletesRecord(f) => In(m, f) && m.flights[f].Deleting? && m.flights[f].sids != []
    case RemovesFromIndex(f) => In(m, f) && m.flights[f].Unindexing? && m.flights[f].sids != []
    case ChecksIndex(f) => In(m, f) && m.flights[f].Checking?
    case DropsIndex(f) => In(m, f) && m.flights[f].Dropping?
    case Fails(f) => In(m, f)
    case TimePasses(_) => true
  }

  /** A logout's next command, if any is left. */
  function LogOut(m: Moment, f: nat, uid: string, sids: seq<string>, bulk: bool): Moment {
    if sids != [] then Fly(m, f, Deleting(uid, sids, bulk)) else if bulk then Fly(m, f, Checking(uid)) else Land(m, f)
  }

  function Fly(m: Moment, f: nat, flight: Flight): Moment {
    m.(flights := m.flights[f := flight])
  }

  function Land(m: Moment, f: nat): Moment {
    m.(flights := m.flights - {f})
  }

  function Draw(m: Moment, ids: set<string>): Moment {
    m.(uuids := m.uuids + ids)
  }

  function Next(c: Config, m: Moment, step: Step): Moment
    requires Possible(m, step)
  {
    match step
    case LoginSignsRefresh(f, user, client, sid, jti) =>
      Draw(Fly(m, f, LoginHalfSigned(SessionData(client.ip, client.userAgent, user.id, user.email, client.os,
        client.browser, "", 0, jti, NowSeconds(m.now) + c.refresh, sid))), {sid, jti})
    case LoginSignsAccess(f, jti) =>
      var data := m.flights[f].data.(jwtAccessId := jti, expAcc := NowSeconds(m.now) + c.access);
      Draw(Fly(m, f, LoginSigned(data)), {jti}).(pairs := m.pairs + {PairOf(data)})
    case LoginWrites(f) =>
      var data := m.flights[f].data;
      Fly(m, f, LoginStored(data.userId, data.sessionId)).(sessions := UpdateSession(m.sessions, data, m.now))
    case LoginIndexes(f) =>
      var uid := m.flights[f].uid;
      Land(m, f).(sessions := PutIndex(m.sessions, uid, IndexOf(m.sessions, uid) + {m.flights[f].sid}))
    case RefreshReads(f, sid) => Fly(m, f, RefreshRead(m.sessions.records[sid].data))
    case RefreshSignsRefresh(f, jti) =>
      var data := m.flights[f].data.(jwtRefreshId := jti, expRef := NowSeconds(m.now) + c.refresh);
      Draw(Fly(m, f, RefreshHalfSigned(data)), {jti})
    case RefreshSignsAccess(f, jti) =>
      var data := m.flights[f].data.(jwtAccessId := jti, expAcc := NowSeconds(m.now) + c.access);
      Draw(Fly(m, f, RefreshSigned(data)), {jti}).(pairs := m.pairs + {PairOf(data)})
    case RefreshWrites(f) => Land(m, f).(sessions := UpdateSession(m.sessions, m.flights[f].data, m.now))
    case LogoutReads(f, sid) => LogOut(m, f, sid, [sid], false)
    case LogoutSessionsStarts(f, uid, sids) => if sids == [] then m else LogOut(m, f, uid, sids, true)
    case LogoutAllStarts(f, uid, sids) => if sids == [] then m else LogOut(m, f, uid, sids, true)
    case DeletesRecord(f) =>
      var Deleting(uid, sids, bulk) := m.flights[f];
      Fly(m, f, Unindexing(uid, sids, bulk)).(sessions := DeleteKey(m.sessions, sids[0]))
    case RemovesFromIndex(f) =>
      var Unindexing(uid, sids, bulk) := m.flights[f];
      var sessions := PutIndex(m.sessions, uid, IndexOf(m.sessions, uid) - {sids[0]});
      LogOut(m, f, uid, sids[1..], bulk).(sessions := sessions)
    case ChecksIndex(f) =>
      if IndexOf(m.sessions, m.flights[f].uid) == {} then Fly(m, f, Dropping(m.flights[f].uid)) else Land(m, f)
    case DropsIndex(f) => Land(m, f).(sessions := PutIndex(m.sessions, m.flights[f].uid, {}))
    case Fails(f) => Land(m, f)
    case TimePasses(ms) => m.(now := m.now + ms)
  }

  ghost predicate Starts(m: Moment) {
    m.sessions == Sessions(map[], map[]) && m.flights == map[] && m.uuids == {} && m.pairs == {}
  }

  /** Any sequence of possible steps from `ms[0]`. */
  ghost predicate Follows(c: Config, ms: seq<Moment>, steps: seq<Step>) {
    && |ms| == |steps| + 1
    && forall i | 0 <= i < |steps| :: Happens(c, ms, steps, i)
  }

  ghost predicate Happens(c: Config, ms: seq<Moment>, steps: seq<Step>, i: nat)
    requires |ms| == |steps| + 1 && i < |steps|
  {
    Possible(ms[i], steps[i]) && ms[i + 1] == Next(c, ms[i], steps[i])
  }

  // ---------- What every step keeps ----------

  /** The pair a flight has signed and not yet written. */
  predicate HoldsPair(m: Moment, f: nat, p: Pair) {
    f in m.flights && (m.flights[f].LoginSigned? || m.flights[f].RefreshSigned?) && PairOf(m.flights[f].data) == p
  }

  ghost predicate RecordsSigned(m: Moment) {
    forall sid | sid in m.sessions.records ::
      var data := m.sessions.records[sid].data;
      data.sessionId == sid && PairOf(data) in m.pairs && forall f :: !HoldsPair(m, f, PairOf(data))
  }

  ghost predicate FlightKnown(m: Moment, flight: Flight)
    requires HasData(flight)
  {
    && flight.data.sessionId in m.uuids
    && (!flight.RefreshRead? ==> flight.data.jwtRefreshId in m.uuids)
    && (flight.LoginSigned? || flight.RefreshSigned? ==> PairOf(flight.data) in m.pairs)
    && (flight.LoginHalfSigned? || flight.RefreshHalfSigned? ==>
          forall p | p in m.pairs :: p.refreshJti != flight.data.jwtRefreshId)
  }

  ghost predicate FlightsKnown(m: Moment) {
    forall f | f in m.flights && HasData(m.flights[f]) :: FlightKnown(m, m.flights[f])
  }

  /** Two flights never carry the same refresh token id once each has drawn its own. */
  ghost predicate FlightsDiffer(m: Moment) {
    forall f, g | f in m.flights && g in m.flights && f != g
        && HasData(m.flights[f]) && !m.flights[f].RefreshRead?
        && HasData(m.flights[g]) && !m.flights[g].RefreshRead? ::
      m.flights[f].data.jwtRefreshId != m.flights[g].data.jwtRefreshId
  }

  /** A token id belongs to one pair only. */
  ghost predicate PairsUnique(m: Moment) {
    && (forall p | p in m.pairs :: {p.sid, p.accessJti, p.refreshJti} <= m.uuids)
    && (forall p, q | p in m.pairs && q in m.pairs && (p.accessJti == q.accessJti || p.refreshJti == q.refreshJti) ::
          p == q)
  }

  ghost predicate Sound(m: Moment) {
    RecordsSigned(m) && FlightsKnown(m) && FlightsDiffer(m) && PairsUnique(m)
  }

  lemma StepKeepsSound(c: Config, m: Moment, step: Step)
    requires Sound(m) && Possible(m, step)
    ensures Sound(Next(c, m, step))
  {
    StepKeepsFlightsKnown(c, m, step);
    StepKeepsFlightsDiffer(c, m, step);
    StepKeepsPairsUnique(c, m, step);
    StepKeepsRecordsSigned(c, m, step);
  }

  lemma StepKeepsFlightsKnown(c: Config, m: Moment, step: Step)
    requires Sound(m) && Possible(m, step)
    ensures FlightsKnown(Next(c, m, step))
  {
    var n := Next(c, m, step);
    forall f | f in n.flights && HasData(n.flights[f]) ensures FlightKnown(n, n.flights[f]) {
      if f in m.flights && n.flights[f] == m.flights[f] {
        OtherStaysKnown(c, m, step, f);
      } else {
        MovedIsKnown(c, m, step);
      }
    }
  }

  lemma OtherStaysKnown(c: Config, m: Moment, step: Step, f: nat)
    requires Sound(m) && Possible(m, step) && f in m.flights && HasData(m.flights[f])
    requires f in Next(c, m, step).flights && Next(c, m, step).flights[f] == m.flights[f]
    ensures FlightKnown(Next(c, m, step), m.flights[f])
  {
    assert FlightKnown(m, m.flights[f]);
    if step.LoginSignsAccess? || step.RefreshSignsAccess? {
      assert FlightKnown(m, m.flights[step.f]);
      assert step.f != f;
    }
  }

  lemma MovedIsKnown(c: Config, m: Moment, step: Step)
    requires Sound(m) && Possible(m, step) && !step.TimePasses?
    requires step.f in Next(c, m, step).flights && HasData(Next(c, m, step).flights[step.f])
    ensures FlightKnown(Next(c, m, step), Next(c, m, step).flights[step.f])
  {
    assert step.f in m.flights && HasData(m.flights[step.f]) ==> FlightKnown(m, m.flights[step.f]);
    if step.RefreshReads? {
      assert m.sessions.records[step.sid].data.sessionId == step.sid;
    }
  }

  lemma StepKeepsFlightsDiffer(c: Config, m: Moment, step: Step)
    requires Sound(m) && Possible(m, step)
    ensures FlightsDiffer(Next(c, m, step))
  {
  }

  lemma StepKeepsPairsUnique(c: Config, m: Moment, step: Step)
    requires Sound(m) && Possible(m, step)
    ensures PairsUnique(Next(c, m, step))
  {
  }

  lemma WrittenIsSigned(c: Config, m: Moment, step: Step)
    requires Sound(m) && Possible(m, step) && (step.LoginWrites? || step.RefreshWrites?)
    ensures var data := m.flights[step.f].data;
            PairOf(data) in m.pairs && forall f :: !HoldsPair(Next(c, m, step), f, PairOf(data))
  {
  }

  /** A pair that no flight holds and that has been signed is never signed or held again. */
  lemma UnheldStays(c: Config, m: Moment, step: Step, p: Pair)
    requires Sound(m) && Possible(m, step) && p in m.pairs && forall f :: !HoldsPair(m, f, p)
    ensures p in Next(c, m, step).pairs && forall f :: !HoldsPair(Next(c, m, step), f, p)
  {
    assert p.accessJti in m.uuids;
    forall f ensures !HoldsPair(Next(c, m, step), f, p) {
      assert !HoldsPair(m, f, p);
    }
  }

  lemma StepKeepsRecordsSigned(c: Config, m: Moment, step: Step)
    requires Sound(m) && Possible(m, step)
    ensures RecordsSigned(Next(c, m, step))
  {
    var n := Next(c, m, step);
    forall sid | sid in n.sessions.records
      ensures var data := n.sessions.records[sid].data;
              data.sessionId == sid && PairOf(data) in n.pairs && forall f :: !HoldsPair(n, f, PairOf(data))
    {
      if sid in m.sessions.records && n.sessions.records[sid] == m.sessions.records[sid] {
        UnheldStays(c, m, step, PairOf(m.sessions.records[sid].data));
      } else {
        WrittenIsSigned(c, m, step);
      }
    }
  }

  lemma {:induction false} RunKeepsSound(c: Config, ms: seq<Moment>, steps: seq<Step>, k: nat)
    requires Follows(c, ms, steps) && Sound(ms[0]) && k < |ms|
    ensures Sound(ms[k])
  {
    if k > 0 {
      RunKeepsSound(c, ms, steps, k - 1);
      assert Happens(c, ms, steps, k - 1);
      StepKeepsSound(c, ms[k - 1], steps[k - 1]);
    }
  }

  // ---------- One pair at a time, and never again ----------

  /** A token with these two claims passes the session check. */
  predicate Validates(m: Moment, sid: string, jti: string, validation: TokenValidationType) {
    ValidateSession(m.sessions, Claims(Subject(None, None, None), Some(sid), Some(jti), 0), validation, m.now)
  }

  function JtiOf(p: Pair, validation: TokenValidationType): string {
    if validation == Access then p.accessJti else p.refreshJti
  }

  /**
    At every moment of every interleaving a live session validates exactly one access id and one refresh id, the
    two that one signing call returned for it, and no token id is valid for two sessions.
   */
  lemma OnePairPerSession(c: Config, ms: seq<Moment>, steps: seq<Step>, k: nat, sid: string)
    requires Follows(c, ms, steps) && Starts(ms[0]) && k < |ms|
    ensures Live(ms[k].sessions, sid, ms[k].now) ==>
              exists p | p in ms[k].pairs && p.sid == sid ::
                forall jti, v :: Validates(ms[k], sid, jti, v) <==> jti == JtiOf(p, v)
    ensures !Live(ms[k].sessions, sid, ms[k].now) ==> forall jti, v :: !Validates(ms[k], sid, jti, v)
    ensures forall jti, v, other | Validates(ms[k], sid, jti, v) && Validates(ms[k], other, jti, v) :: other == sid
  {
    RunKeepsSound(c, ms, steps, k);
    var m := ms[k];
    if Live(m.sessions, sid, m.now) {
      var p := PairOf(m.sessions.records[sid].data);
      assert p in m.pairs && p.sid == sid;
      assert forall jti, v :: Validates(m, sid, jti, v) <==> jti == JtiOf(p, v);
    }
    forall jti, v, other | Validates(m, sid, jti, v) && Validates(m, other, jti, v) ensures other == sid {
      var p, q := PairOf(m.sessions.records[sid].data), PairOf(m.sessions.records[other].data);
      assert p in m.pairs && q in m.pairs && JtiOf(p, v) == JtiOf(q, v);
    }
  }

  predicate Stored(m: Moment, p: Pair) {
    Live(m.sessions, p.sid, m.now) && PairOf(m.sessions.records[p.sid].data) == p
  }

  /** Signed, not in the store, and in no request's hands. */
  ghost predicate Spent(m: Moment, p: Pair) {
    p in m.pairs && !Stored(m, p) && forall f :: !HoldsPair(m, f, p)
  }

  lemma StepKeepsSpent(c: Config, m: Moment, step: Step, p: Pair)
    requires Sound(m) && Possible(m, step) && (Spent(m, p) || Stored(m, p))
    ensures var n := Next(c, m, step);
            Spent(n, p) || (Stored(m, p) && Stored(n, p))
  {
    UnheldStays(c, m, step, p);
    if Spent(m, p) && (step.LoginWrites? || step.RefreshWrites?) {
      assert HoldsPair(m, step.f, PairOf(m.flights[step.f].data));
    }
  }

  lemma {:induction false} SpentStays(c: Config, ms: seq<Moment>, steps: seq<Step>, i: nat, k: nat, p: Pair)
    requires Follows(c, ms, steps) && Sound(ms[0]) && i <= k < |ms| && (Spent(ms[i], p) || Stored(ms[i], p))
    ensures Spent(ms[k], p) || (Stored(ms[i], p) && Stored(ms[k], p))
  {
    if i < k {
      SpentStays(c, ms, steps, i, k - 1, p);
      RunKeepsSound(c, ms, steps, k - 1);
      assert Happens(c, ms, steps, k - 1);
      StepKeepsSpent(c, ms[k - 1], steps[k - 1], p);
    }
  }

  /**
    A token id that was valid for a session and is not any more - superseded, logged out or expired - is never
    valid again, however many refreshes of the session are in flight.
   */
  lemma NeverValidAgain(c: Config, ms: seq<Moment>, steps: seq<Step>, i: nat, j: nat, k: nat, sid: string,
                        jti: string, v: TokenValidationType)
    requires Follows(c, ms, steps) && Starts(ms[0]) && i <= j <= k < |ms|
    requires Validates(ms[i], sid, jti, v) && !Validates(ms[j], sid, jti, v)
    ensures !Validates(ms[k], sid, jti, v)
  {
    var p := PairOf(ms[i].sessions.records[sid].data);
    RunKeepsSound(c, ms, steps, i);
    assert p.sid == sid && Stored(ms[i], p);
    SpentStays(c, ms, steps, i, j, p);
    SpentStays(c, ms, steps, j, k, p);
    RunKeepsSound(c, ms, steps, k);
  }

  // ---------- When a session can come back ----------

  /** A request that can still write a record of `sid`: it has yet to sign, or its record would not be too old. */
  predicate CanWrite(m: Moment, f: nat, sid: string) {
    && f in m.flights && HasData(m.flights[f]) && m.flights[f].data.sessionId == sid
    && (m.flights[f].RefreshRead? || m.flights[f].data.expRef * 1000 - m.now > -1000)
  }

  ghost predicate Gone(m: Moment, sid: string) {
    sid in m.uuids && !Live(m.sessions, sid, m.now) && forall f :: !CanWrite(m, f, sid)
  }

  lemma StepKeepsGone(c: Config, m: Moment, step: Step, sid: string)
    requires Sound(m) && Possible(m, step) && Gone(m, sid)
    ensures Gone(Next(c, m, step), sid)
  {
    var n := Next(c, m, step);
    forall f ensures !CanWrite(n, f, sid) {
      assert !CanWrite(m, f, sid);
      if step.RefreshReads? {
        assert m.sessions.records[step.sid].data.sessionId == step.sid;
      }
    }
    if step.LoginWrites? || step.RefreshWrites? {
      assert !CanWrite(m, step.f, sid);
      TtlCases(m.flights[step.f].data.expRef, m.now);
    }
  }

  lemma {:induction false} GoneStays(c: Config, ms: seq<Moment>, steps: seq<Step>, k: nat, sid: string)
    requires Follows(c, ms, steps) && Sound(ms[0]) && Gone(ms[0], sid) && k < |ms|
    ensures Gone(ms[k], sid)
  {
    if k > 0 {
      GoneStays(c, ms, steps, k - 1, sid);
      RunKeepsSound(c, ms, steps, k - 1);
      assert Happens(c, ms, steps, k - 1);
      StepKeepsGone(c, ms[k - 1], steps[k - 1], sid);
    }
  }

  /** UUIDs are taken to be inexhaustible: there is always one not drawn before. */
  lemma UnusedId(ids: set<string>) returns (id: string)
    ensures id !in ids
  {
    var n := LengthBound(ids);
    id := seq(n, _ => '0');
  }

  lemma LengthBound(ids: set<string>) returns (n: nat)
    ensures forall id | id in ids :: |id| < n
  {
    if ids == {} {
      n := 0;
    } else {
      var some :| some in ids;
      n := LengthBound(ids - {some});
      n := if |some| < n then n else |some| + 1;
    }
  }

  /** A run followed by a run from where it ends. */
  lemma Joined(c: Config, ms: seq<Moment>, steps: seq<Step>, ns: seq<Moment>, more: seq<Step>)
    requires Follows(c, ms, steps) && Follows(c, ns, more) && ns[0] == ms[|steps|]
    ensures Follows(c, ms + ns[1..], steps + more) && (ms + ns[1..])[|steps| + |more|] == ns[|more|]
  {
    var us, all := ms + ns[1..], steps + more;
    forall i | 0 <= i < |all| ensures Happens(c, us, all, i) {
      if i < |steps| {
        assert Happens(c, ms, steps, i);
      } else {
        assert Happens(c, ns, more, i - |steps|);
        assert us[i] == ns[i - |steps|] && all[i] == more[i - |steps|];
      }
    }
  }

  function StepsToWrite(flight: Flight): nat {
    match flight
    case RefreshRead(_) => 3
    case LoginHalfSigned(_) => 2
    case RefreshHalfSigned(_) => 2
    case _ => 1
  }

  /** A step that a request already in flight takes towards its end. */
  predicate GoesOn(step: Step, f: nat) {
    match step
    case TimePasses(_) => false
    case LoginSignsRefresh(_, _, _, _, _) => false
    case RefreshReads(_, _) => false
    case LogoutReads(_, _) => false
    case LogoutSessionsStarts(_, _, _) => false
    case LogoutAllStarts(_, _, _) => false
    case Fails(_) => false
    case _ => step.f == f
  }

  /** The steps that carry a flight to its write, all in the present moment. */
  lemma {:induction false} FlightLands(c: Config, m: Moment, f: nat, sid: string)
    returns (ms: seq<Moment>, steps: seq<Step>)
    requires CanWrite(m, f, sid) && c.refresh >= 0
    ensures Follows(c, ms, steps) && ms[0] == m && forall i | 0 <= i < |steps| :: GoesOn(steps[i], f)
    ensures Live(ms[|steps|].sessions, sid, ms[|steps|].now)
    ensures IsRefresh(m.flights[f]) ==>
              && ms[|steps|].sessions.index == m.sessions.index
              && ms[|steps|].sessions.records[sid].data.userId == m.flights[f].data.userId
              && forall g, uid | AboutToIndex(ms[|steps|], g, uid, sid) :: AboutToIndex(m, g, uid, sid)
    ensures m.flights[f].RefreshRead? ==>
              && |steps| == 3
              && steps[0].RefreshSignsRefresh? && steps[1].RefreshSignsAccess? && steps[2].RefreshWrites?
    ensures m.flights[f].RefreshHalfSigned? ==> |steps| == 2 && steps[0].RefreshSignsAccess? && steps[1].RefreshWrites?
    ensures m.flights[f].RefreshSigned? ==> |steps| == 1 && steps[0].RefreshWrites?
    decreases StepsToWrite(m.flights[f])
  {
    var jti := UnusedId(m.uuids);
    var step;
    match m.flights[f] {
      case LoginHalfSigned(data) => step := LoginSignsAccess(f, jti);
      case LoginSigned(data) => step := LoginWrites(f);
      case RefreshRead(data) => step := RefreshSignsRefresh(f, jti);
      case RefreshHalfSigned(data) => step := RefreshSignsAccess(f, jti);
      case RefreshSigned(data) => step := RefreshWrites(f);
    }
    var n := Next(c, m, step);
    if step.LoginWrites? || step.RefreshWrites? {
      WriteOutcome(m.sessions, sid, m.flights[f].data, m.now);
      ms, steps := [m, n], [step];
    } else {
      var rest, more := FlightLands(c, n, f, sid);
      ms, steps := [m, n] + rest[1..], [step] + more;
      Joined(c, [m, n], [step], rest, more);
    }
  }

  /**
    A session that is not live, in a moment that interleavings reach, can become live again exactly if some request
    that had drawn or read it before is still in flight and its record is not yet more than a second past expiry.
   */
  lemma ReappearsExactly(c: Config, past: seq<Moment>, done: seq<Step>, sid: string)
    requires Follows(c, past, done) && Starts(past[0]) && c.refresh >= 0
    requires sid in past[|done|].uuids && !Live(past[|done|].sessions, sid, past[|done|].now)
    ensures (exists ms: seq<Moment>, steps: seq<Step>, k: nat | k < |ms| ::
               Follows(c, ms, steps) && ms[0] == past[|done|] && Live(ms[k].sessions, sid, ms[k].now))
              <==> exists f :: CanWrite(past[|done|], f, sid)
  {
    var m := past[|done|];
    RunKeepsSound(c, past, done, |done|);
    if f :| CanWrite(m, f, sid) {
      var ms, steps := FlightLands(c, m, f, sid);
    } else {
      forall ms: seq<Moment>, steps: seq<Step>, k: nat | k < |ms| && Follows(c, ms, steps) && ms[0] == m
        ensures !Live(ms[k].sessions, sid, ms[k].now)
      {
        GoneStays(c, ms, steps, k, sid);
      }
    }
  }

  // ---------- What only whole requests keep ----------

  predicate AboutToIndex(m: Moment, f: nat, uid: string, sid: string) {
    f in m.flights && m.flights[f] == LoginStored(uid, sid)
  }

  /** `sid` is in the index of `uid`, or a login is about to put it there. */
  ghost predicate IsIndexed(m: Moment, uid: string, sid: string) {
    sid in IndexOf(m.sessions, uid) || exists f :: AboutToIndex(m, f, uid, sid)
  }

  /** The session id a login has drawn. */
  function LoginSid(flight: Flight): Option<string> {
    match flight
    case LoginHalfSigned(data) => Some(data.sessionId)
    case LoginSigned(data) => Some(data.sessionId)
    case LoginStored(_, sid) => Some(sid)
    case _ => None
  }

  predicate LogsIn(m: Moment, f: nat, sid: string) {
    f in m.flights && LoginSid(m.flights[f]) == Some(sid)
  }

  /** A login's session id is a UUID and nobody else's, and in no index before the login puts it there. */
  ghost predicate LoginsAlone(m: Moment) {
    && (forall uid, sid | sid in IndexOf(m.sessions, uid) :: IsUuid(sid) && sid in m.uuids)
    && (forall f, sid | LogsIn(m, f, sid) ::
          IsUuid(sid) && sid in m.uuids && forall uid :: sid !in IndexOf(m.sessions, uid))
    && (forall f, g, sid | LogsIn(m, f, sid) && LogsIn(m, g, sid) :: f == g)
  }

  lemma StepKeepsLoginsAlone(c: Config, m: Moment, step: Step)
    requires Sound(m) && LoginsAlone(m) && Possible(m, step)
    ensures LoginsAlone(Next(c, m, step))
  {
    var n := Next(c, m, step);
    forall f, sid | LogsIn(n, f, sid)
      ensures LogsIn(m, f, sid) || (step.LoginSignsRefresh? && step.f == f && step.sid == sid)
    {
    }
    assert m.uuids <= n.uuids;
    forall uid, sid | sid in IndexOf(n.sessions, uid)
      ensures IsUuid(sid) && sid in m.uuids && forall f :: !LogsIn(n, f, sid)
    {
      if sid !in IndexOf(m.sessions, uid) {
        IndexesGrow(c, m, step, uid, sid);
      }
      forall f ensures !LogsIn(n, f, sid) {
        assert LogsIn(n, f, sid) ==> LogsIn(m, f, sid);
      }
    }
  }

  /** Only a login adds to an index, and it adds its own session as it ends. */
  lemma IndexesGrow(c: Config, m: Moment, step: Step, uid: string, sid: string)
    requires Possible(m, step) && sid in IndexOf(Next(c, m, step).sessions, uid) && sid !in IndexOf(m.sessions, uid)
    ensures step.LoginIndexes? && LogsIn(m, step.f, sid) && !LogsIn(Next(c, m, step), step.f, sid)
  {
  }

  lemma {:induction false} RunKeepsLoginsAlone(c: Config, ms: seq<Moment>, steps: seq<Step>, k: nat)
    requires Follows(c, ms, steps) && Sound(ms[0]) && LoginsAlone(ms[0]) && k < |ms|
    ensures Sound(ms[k]) && LoginsAlone(ms[k])
  {
    RunKeepsSound(c, ms, steps, k);
    if k > 0 {
      RunKeepsLoginsAlone(c, ms, steps, k - 1);
      assert Happens(c, ms, steps, k - 1);
      StepKeepsLoginsAlone(c, ms[k - 1], steps[k - 1]);
    }
  }

  // ---------- Which steps lose a session to its index ----------

  /** A refresh at work that can still write a record of `sid`, as the user's. */
  predicate CanRestore(m: Moment, f: nat, uid: string, sid: string) {
    CanWrite(m, f, sid) && IsRefresh(m.flights[f]) && m.flights[f].data.userId == uid
  }

  /** `sid` is a live session of `uid`, or a refresh can still make it one. */
  ghost predicate Needed(m: Moment, uid: string, sid: string) {
    || (Live(m.sessions, sid, m.now) && m.sessions.records[sid].data.userId == uid)
    || exists f :: CanRestore(m, f, uid, sid)
  }

  /** `getAllSessions` and a logout everywhere miss no live session, and none that a refresh at work brings back. */
  ghost predicate AllIndexed(m: Moment) {
    forall uid, sid | Needed(m, uid, sid) :: IsIndexed(m, uid, sid)
  }

  /** The step takes `sid` out of the index of `uid`, or gives up putting it there. */
  ghost predicate TakesOut(m: Moment, step: Step, uid: string, sid: string)
    requires Possible(m, step)
  {
    match step
    case RemovesFromIndex(f) =>
      m.flights[f].uid == uid && m.flights[f].sids[0] == sid && sid in IndexOf(m.sessions, uid)
    case DropsIndex(f) => m.flights[f].uid == uid && sid in IndexOf(m.sessions, uid)
    case DeletesRecord(f) => IndexNamed(m.flights[f].sids[0]) == Some(uid) && sid in IndexOf(m.sessions, uid)
    case Fails(f) => m.flights[f] == LoginStored(uid, sid)
    case _ => false
  }

  /** What the step takes out of an index belongs to no live session, and no refresh at work holds it. */
  ghost predicate Calm(m: Moment, step: Step)
    requires Possible(m, step)
  {
    forall uid, sid | TakesOut(m, step, uid, sid) :: !Needed(m, uid, sid)
  }

  lemma TakenStaysNeeded(c: Config, m: Moment, step: Step, uid: string, sid: string)
    requires LoginsAlone(m) && Possible(m, step) && TakesOut(m, step, uid, sid) && Needed(m, uid, sid)
    ensures Needed(Next(c, m, step), uid, sid)
  {
    if Live(m.sessions, sid, m.now) {
      TakenStaysLive(c, m, step, uid, sid);
    }
    if f :| CanRestore(m, f, uid, sid) {
      assert CanRestore(Next(c, m, step), f, uid, sid);
    }
  }

  /** A step that takes a session out of its index leaves its record alone. */
  lemma TakenStaysLive(c: Config, m: Moment, step: Step, uid: string, sid: string)
    requires LoginsAlone(m) && Possible(m, step) && TakesOut(m, step, uid, sid) && Live(m.sessions, sid, m.now)
    ensures var n := Next(c, m, step);
            Live(n.sessions, sid, n.now) && n.sessions.records[sid] == m.sessions.records[sid]
  {
    if step.DeletesRecord? {
      IndexNamedExactly(sid, uid);
    }
  }

  lemma TakenIsOut(c: Config, m: Moment, step: Step, uid: string, sid: string)
    requires LoginsAlone(m) && Possible(m, step) && TakesOut(m, step, uid, sid)
    ensures !IsIndexed(Next(c, m, step), uid, sid)
  {
    var n := Next(c, m, step);
    if step.Fails? {
      assert LogsIn(m, step.f, sid);
    }
    forall f ensures !AboutToIndex(n, f, uid, sid) {
      if AboutToIndex(n, f, uid, sid) {
        assert LogsIn(m, f, sid);
      }
    }
  }

  /** A step that is not calm leaves a needed session out of its owner's index. */
  lemma UncalmStepLoses(c: Config, m: Moment, step: Step, uid: string, sid: string)
    requires LoginsAlone(m) && Possible(m, step) && TakesOut(m, step, uid, sid) && Needed(m, uid, sid)
    ensures !AllIndexed(Next(c, m, step))
  {
    TakenStaysNeeded(c, m, step, uid, sid);
    TakenIsOut(c, m, step, uid, sid);
  }

  lemma CalmStepKeepsIndexed(c: Config, m: Moment, step: Step)
    requires Sound(m) && AllIndexed(m) && Possible(m, step) && Calm(m, step)
    ensures AllIndexed(Next(c, m, step))
  {
    var n := Next(c, m, step);
    forall uid, sid | Needed(n, uid, sid) ensures IsIndexed(n, uid, sid) {
      if step.LoginWrites? && m.flights[step.f].data.sessionId == sid && m.flights[step.f].data.userId == uid {
        assert AboutToIndex(n, step.f, uid, sid);
      } else {
        NeededBefore(c, m, step, uid, sid);
        StaysIndexed(c, m, step, uid, sid);
      }
    }
  }

  /** A refresh at work that can restore a session read it while it was live. */
  lemma RestorableBefore(c: Config, m: Moment, step: Step, f: nat, uid: string, sid: string)
    requires Sound(m) && Possible(m, step) && CanRestore(Next(c, m, step), f, uid, sid)
    ensures Needed(m, uid, sid)
  {
    if step.RefreshReads? && step.f == f {
      assert m.sessions.records[step.sid].data.sessionId == step.sid;
    } else {
      assert CanRestore(m, f, uid, sid);
    }
  }

  lemma LiveBefore(c: Config, m: Moment, step: Step, sid: string)
    requires Sound(m) && Possible(m, step) && Live(Next(c, m, step).sessions, sid, Next(c, m, step).now)
    ensures var data := Next(c, m, step).sessions.records[sid].data;
            || (Live(m.sessions, sid, m.now) && m.sessions.records[sid].data == data)
            || ((step.LoginWrites? || step.RefreshWrites?) && CanWrite(m, step.f, sid)
                && m.flights[step.f].data == data)
  {
    if step.LoginWrites? || step.RefreshWrites? {
      TtlCases(m.flights[step.f].data.expRef, m.now);
    }
  }

  /** Only the first write of a login makes a session needed. */
  lemma NeededBefore(c: Config, m: Moment, step: Step, uid: string, sid: string)
    requires Sound(m) && Possible(m, step) && Needed(Next(c, m, step), uid, sid)
    requires step.LoginWrites? ==> m.flights[step.f].data.sessionId != sid || m.flights[step.f].data.userId != uid
    ensures Needed(m, uid, sid)
  {
    var n := Next(c, m, step);
    if f :| CanRestore(n, f, uid, sid) {
      RestorableBefore(c, m, step, f, uid, sid);
    } else {
      LiveBefore(c, m, step, sid);
      if step.RefreshWrites? && CanWrite(m, step.f, sid) && m.flights[step.f].data.userId == uid {
        assert CanRestore(m, step.f, uid, sid);
      }
    }
  }

  lemma StaysIndexed(c: Config, m: Moment, step: Step, uid: string, sid: string)
    requires Possible(m, step) && IsIndexed(m, uid, sid) && !TakesOut(m, step, uid, sid)
    ensures IsIndexed(Next(c, m, step), uid, sid)
  {
    var n := Next(c, m, step);
    if sid !in IndexOf(m.sessions, uid) {
      var f :| AboutToIndex(m, f, uid, sid);
      assert sid in IndexOf(n.sessions, uid) || AboutToIndex(n, f, uid, sid);
    }
  }

  ghost predicate AllCalm(c: Config, ms: seq<Moment>, steps: seq<Step>)
    requires |ms| == |steps| + 1
  {
    forall i | 0 <= i < |steps| :: CalmAt(c, ms, steps, i)
  }

  ghost predicate CalmAt(c: Config, ms: seq<Moment>, steps: seq<Step>, i: nat)
    requires |ms| == |steps| + 1 && i < |steps|
  {
    Happens(c, ms, steps, i) && Calm(ms[i], steps[i])
  }

  ghost predicate EverIndexed(ms: seq<Moment>) {
    forall k | 0 <= k < |ms| :: AllIndexed(ms[k])
  }

  /**
    Along a run every session that is live, or that a refresh at work can still make so, stays in its owner's index
    exactly if every step is calm when it is taken.
   */
  lemma StaysIndexedExactly(c: Config, ms: seq<Moment>, steps: seq<Step>)
    requires Follows(c, ms, steps) && Starts(ms[0])
    ensures EverIndexed(ms) <==> AllCalm(c, ms, steps)
  {
    if AllCalm(c, ms, steps) {
      forall k | 0 <= k < |ms| ensures AllIndexed(ms[k]) {
        CalmRunsStayIndexed(c, ms, steps, k);
      }
    } else {
      var i :| 0 <= i < |steps| && !CalmAt(c, ms, steps, i);
      UncalmAt(c, ms, steps, i);
    }
  }

  lemma UncalmAt(c: Config, ms: seq<Moment>, steps: seq<Step>, i: nat)
    requires Follows(c, ms, steps) && Starts(ms[0]) && i < |steps|
    requires !CalmAt(c, ms, steps, i)
    ensures !AllIndexed(ms[i + 1])
  {
    assert Happens(c, ms, steps, i);
    assert LoginsAlone(ms[i]) by {
      RunKeepsLoginsAlone(c, ms, steps, i);
    }
    UncalmLoses(c, ms[i], steps[i]);
  }

  lemma UncalmLoses(c: Config, m: Moment, step: Step)
    requires LoginsAlone(m) && Possible(m, step) && !Calm(m, step)
    ensures !AllIndexed(Next(c, m, step))
  {
    var uid, sid :| TakesOut(m, step, uid, sid) && Needed(m, uid, sid);
    UncalmStepLoses(c, m, step, uid, sid);
  }

  lemma CalmStepAt(c: Config, ms: seq<Moment>, steps: seq<Step>, i: nat)
    requires |ms| == |steps| + 1 && i < |steps| && CalmAt(c, ms, steps, i) && Sound(ms[i]) && AllIndexed(ms[i])
    ensures Sound(ms[i + 1]) && AllIndexed(ms[i + 1])
  {
    StepKeepsSound(c, ms[i], steps[i]);
    CalmStepKeepsIndexed(c, ms[i], steps[i]);
  }

  lemma CalmRunsStayIndexed(c: Config, ms: seq<Moment>, steps: seq<Step>, k: nat)
    requires Follows(c, ms, steps) && Starts(ms[0]) && k < |ms| && AllCalm(c, ms, steps)
    ensures AllIndexed(ms[k])
  {
    for i := 0 to k
      invariant Sound(ms[i]) && AllIndexed(ms[i])
    {
      CalmStepAt(c, ms, steps, i);
    }
  }

  // ---------- Which runs lose a live session ----------

  /** The session is live, but neither `getAllSessions` nor a logout everywhere would find it. */
  ghost predicate Lost(m: Moment, sid: string) {
    Live(m.sessions, sid, m.now) && !IsIndexed(m, m.sessions.records[sid].data.userId, sid)
  }

  ghost predicate NoneLost(m: Moment) {
    forall sid :: !Lost(m, sid)
  }

  predicate IsLiveOf(m: Moment, uid: string, sid: string) {
    Live(m.sessions, sid, m.now) && m.sessions.records[sid].data.userId == uid
  }

  /** No live session is taken out of its owner's index, and a refresh that still stores its record finds it indexed. */
  ghost predicate Harmless(m: Moment, step: Step)
    requires Possible(m, step)
  {
    && (forall uid, sid | TakesOut(m, step, uid, sid) :: !IsLiveOf(m, uid, sid))
    && (step.RefreshWrites? ==>
          var data := m.flights[step.f].data;
          data.expRef * 1000 - m.now > -1000 ==> IsIndexed(m, data.userId, data.sessionId))
  }

  lemma HarmlessStepLosesNone(c: Config, m: Moment, step: Step)
    requires Sound(m) && NoneLost(m) && Possible(m, step) && Harmless(m, step)
    ensures NoneLost(Next(c, m, step))
  {
    var n := Next(c, m, step);
    forall sid ensures !Lost(n, sid) {
      if Live(n.sessions, sid, n.now) {
        LiveBefore(c, m, step, sid);
        var uid := n.sessions.records[sid].data.userId;
        if step.LoginWrites? && CanWrite(m, step.f, sid) && m.flights[step.f].data.userId == uid {
          assert AboutToIndex(n, step.f, uid, sid);
        } else {
          assert !Lost(m, sid);
          StaysIndexed(c, m, step, uid, sid);
        }
      }
    }
  }

  lemma HarmfulTakeLoses(c: Config, m: Moment, step: Step, uid: string, sid: string)
    requires LoginsAlone(m) && Possible(m, step) && TakesOut(m, step, uid, sid) && IsLiveOf(m, uid, sid)
    ensures Lost(Next(c, m, step), sid)
  {
    TakenStaysLive(c, m, step, uid, sid);
    TakenIsOut(c, m, step, uid, sid);
  }

  lemma HarmfulWriteLoses(c: Config, m: Moment, step: Step)
    requires Possible(m, step) && step.RefreshWrites? && m.flights[step.f].data.expRef * 1000 - m.now > -1000
    requires !IsIndexed(m, m.flights[step.f].data.userId, m.flights[step.f].data.sessionId)
    ensures Lost(Next(c, m, step), m.flights[step.f].data.sessionId)
  {
    var data, n := m.flights[step.f].data, Next(c, m, step);
    WriteOutcome(m.sessions, data.sessionId, data, m.now);
    forall f ensures !AboutToIndex(n, f, data.userId, data.sessionId) {
      assert !AboutToIndex(m, f, data.userId, data.sessionId);
    }
  }

  lemma HarmfulStepLoses(c: Config, m: Moment, step: Step) returns (sid: string)
    requires LoginsAlone(m) && Possible(m, step) && !Harmless(m, step)
    ensures Lost(Next(c, m, step), sid)
  {
    if uid, id :| TakesOut(m, step, uid, id) && IsLiveOf(m, uid, id) {
      HarmfulTakeLoses(c, m, step, uid, id);
      sid := id;
    } else {
      HarmfulWriteLoses(c, m, step);
      sid := m.flights[step.f].data.sessionId;
    }
  }

  ghost predicate AllHarmless(c: Config, ms: seq<Moment>, steps: seq<Step>)
    requires |ms| == |steps| + 1
  {
    forall i | 0 <= i < |steps| :: HarmlessAt(c, ms, steps, i)
  }

  ghost predicate HarmlessAt(c: Config, ms: seq<Moment>, steps: seq<Step>, i: nat)
    requires |ms| == |steps| + 1 && i < |steps|
  {
    Happens(c, ms, steps, i) && Harmless(ms[i], steps[i])
  }

  ghost predicate NeverLost(ms: seq<Moment>) {
    forall k | 0 <= k < |ms| :: NoneLost(ms[k])
  }

  lemma HarmlessStepAt(c: Config, ms: seq<Moment>, steps: seq<Step>, i: nat)
    requires |ms| == |steps| + 1 && i < |steps| && HarmlessAt(c, ms, steps, i) && Sound(ms[i]) && NoneLost(ms[i])
    ensures Sound(ms[i + 1]) && NoneLost(ms[i + 1])
  {
    StepKeepsSound(c, ms[i], steps[i]);
    HarmlessStepLosesNone(c, ms[i], steps[i]);
  }

  lemma HarmlessRunsLoseNone(c: Config, ms: seq<Moment>, steps: seq<Step>, k: nat)
    requires Follows(c, ms, steps) && Starts(ms[0]) && k < |ms| && AllHarmless(c, ms, steps)
    ensures NoneLost(ms[k])
  {
    for i := 0 to k
      invariant Sound(ms[i]) && NoneLost(ms[i])
    {
      HarmlessStepAt(c, ms, steps, i);
    }
  }

  lemma HarmfulAt(c: Config, ms: seq<Moment>, steps: seq<Step>, i: nat)
    requires Follows(c, ms, steps) && Starts(ms[0]) && i < |steps| && !HarmlessAt(c, ms, steps, i)
    ensures !NoneLost(ms[i + 1])
  {
    assert Happens(c, ms, steps, i);
    assert LoginsAlone(ms[i]) by {
      RunKeepsLoginsAlone(c, ms, steps, i);
    }
    var sid := HarmfulStepLoses(c, ms[i], steps[i]);
  }

  /** Along a run no session is ever live and missing from its owner's index exactly if every step is harmless. */
  lemma NeverLostExactly(c: Config, ms: seq<Moment>, steps: seq<Step>)
    requires Follows(c, ms, steps) && Starts(ms[0])
    ensures NeverLost(ms) <==> AllHarmless(c, ms, steps)
  {
    if AllHarmless(c, ms, steps) {
      forall k | 0 <= k < |ms| ensures NoneLost(ms[k]) {
        HarmlessRunsLoseNone(c, ms, steps, k);
      }
    } else {
      var i :| 0 <= i < |steps| && !HarmlessAt(c, ms, steps, i);
      HarmfulAt(c, ms, steps, i);
    }
  }

  // ---------- Logouts without interference ----------

  lemma RemoveSessionsTwice(m: Sessions, uid: string, a: set<string>, b: set<string>)
    ensures RemoveSessions(RemoveSessions(m, uid, a), uid, b) == RemoveSessions(m, uid, a + b)
  {
    var n := RemoveSessions(m, uid, a);
    assert m.records - a - b == m.records - (a + b);
    assert IndexOf(n, uid) - b == IndexOf(m, uid) - (a + b);
    var rest := IndexOf(m, uid) - (a + b);
    if rest == {} {
      assert n.index - {uid} == m.index - {uid};
    } else {
      assert n.index[uid := rest] == m.index[uid := rest];
    }
  }

  /** `m` after the logout `f` is over. */
  function LoggedOut(m: Moment, f: nat, uid: string, sids: seq<string>): Moment {
    Land(m, f).(sessions := RemoveSessions(m.sessions, uid, IdSet(sids)))
  }

  lemma OneStep(c: Config, m: Moment, step: Step)
    requires Possible(m, step)
    ensures Follows(c, [m, Next(c, m, step)], [step])
  {
  }

  /** A bulk logout past its loop finds its index empty or leaves it. */
  lemma CheckLands(c: Config, m: Moment, f: nat) returns (ms: seq<Moment>, steps: seq<Step>)
    requires f in m.flights && m.flights[f].Checking?
    requires m.flights[f].uid in m.sessions.index ==> m.sessions.index[m.flights[f].uid] != {}
    ensures Follows(c, ms, steps) && ms[0] == m && ms[|steps|] == Land(m, f)
    ensures forall i | 0 <= i < |steps| :: GoesOn(steps[i], f)
  {
    var n := Next(c, m, ChecksIndex(f));
    OneStep(c, m, ChecksIndex(f));
    ms, steps := [m, n], [ChecksIndex(f)];
    if IndexOf(m.sessions, m.flights[f].uid) == {} {
      OneStep(c, n, DropsIndex(f));
      assert n.flights - {f} == m.flights - {f};
      assert n.sessions.index - {m.flights[f].uid} == m.sessions.index;
      Joined(c, ms, steps, [n, Next(c, n, DropsIndex(f))], [DropsIndex(f)]);
      ms, steps := ms + [n, Next(c, n, DropsIndex(f))][1..], steps + [DropsIndex(f)];
    }
  }

  /** The record keys of `sids` are not the keys of indexes. */
  ghost predicate NameNoIndex(m: Sessions, sids: seq<string>) {
    forall sid | sid in sids && IndexNamed(sid).Some? :: IndexNamed(sid).value !in m.index
  }

  lemma DeletesRecordOnly(m: Sessions, sid: string)
    requires IndexNamed(sid).Some? ==> IndexNamed(sid).value !in m.index
    ensures DeleteKey(m, sid) == m.(records := m.records - {sid})
  {
    if IndexNamed(sid).Some? {
      assert m.index - {IndexNamed(sid).value} == m.index;
    }
  }

  /** A logout that nothing comes between does what the whole request does. */
  lemma {:induction false} LogoutLands(c: Config, m: Moment, f: nat) returns (ms: seq<Moment>, steps: seq<Step>)
    requires f in m.flights && m.flights[f].Deleting? && m.flights[f].sids != []
    requires NameNoIndex(m.sessions, m.flights[f].sids)
    ensures Follows(c, ms, steps) && ms[0] == m && forall i | 0 <= i < |steps| :: GoesOn(steps[i], f)
    ensures ms[|steps|] == LoggedOut(m, f, m.flights[f].uid, m.flights[f].sids)
    decreases |m.flights[f].sids|
  {
    var Deleting(uid, sids, bulk) := m.flights[f];
    var m1 := Next(c, m, DeletesRecord(f));
    var m2 := Next(c, m1, RemovesFromIndex(f));
    OneStep(c, m, DeletesRecord(f));
    OneStep(c, m1, RemovesFromIndex(f));
    Joined(c, [m, m1], [DeletesRecord(f)], [m1, m2], [RemovesFromIndex(f)]);
    ms, steps := [m, m1] + [m1, m2][1..], [DeletesRecord(f)] + [RemovesFromIndex(f)];
    DeletesRecordOnly(m.sessions, sids[0]);
    assert m2.sessions == RemoveSessions(m.sessions, uid, {sids[0]});
    assert NameNoIndex(m2.sessions, sids[1..]);
    assert Land(m2, f).flights == m.flights - {f};
    assert IdSet(sids) == {sids[0]} + IdSet(sids[1..]);
    if |sids| == 1 {
      assert IdSet(sids) == {sids[0]};
      if bulk {
        var ns, more := CheckLands(c, m2, f);
        Joined(c, ms, steps, ns, more);
        ms, steps := ms + ns[1..], steps + more;
      }
    } else {
      RemoveSessionsTwice(m.sessions, uid, {sids[0]}, IdSet(sids[1..]));
      var ns, more := LogoutLands(c, m2, f);
      Joined(c, ms, steps, ns, more);
      ms, steps := ms + ns[1..], steps + more;
    }
  }

  /** Redis keeps no empty set: an index that is there has members. */
  ghost predicate NoEmptyIndex(m: Moment) {
    forall uid | uid in m.sessions.index :: m.sessions.index[uid] != {}
  }

  lemma {:induction false} RunKeepsNoEmptyIndex(c: Config, ms: seq<Moment>, steps: seq<Step>, k: nat)
    requires Follows(c, ms, steps) && NoEmptyIndex(ms[0]) && k < |ms|
    ensures NoEmptyIndex(ms[k])
    decreases k
  {
    if k > 0 {
      RunKeepsNoEmptyIndex(c, ms, steps, k - 1);
      assert Happens(c, ms, steps, k - 1);
    }
  }

  predicate StartsLogout(step: Step) {
    step.LogoutReads? || step.LogoutSessionsStarts? || step.LogoutAllStarts?
  }

  /** The whole request that a logout's first step begins. */
  function WholeLogout(step: Step): Event
    requires StartsLogout(step)
  {
    match step
    case LogoutReads(_, sid) => Logout(sid)
    case LogoutSessionsStarts(_, uid, sids) => LogoutSessions(uid, IdSet(sids))
    case LogoutAllStarts(_, uid, _) => LogoutAll(uid)
  }

  /** A logout of any kind that nothing comes between leaves what the whole request leaves, and is over. */
  lemma LogoutUndisturbed(c: Config, m: Moment, step: Step, s: State) returns (ms: seq<Moment>, steps: seq<Step>)
    requires LoginsAlone(m) && NoEmptyIndex(m) && StartsLogout(step) && Possible(m, step) && s.sessions == m.sessions
    ensures Follows(c, ms, steps) && ms[0] == m && |steps| >= 1 && steps[0] == step
    ensures forall i | 1 <= i < |steps| :: GoesOn(steps[i], step.f)
    ensures ms[|steps|] == m.(sessions := Apply(c, s, WholeLogout(step)).sessions)
  {
    var n := Next(c, m, step);
    OneStep(c, m, step);
    ms, steps := [m, n], [step];
    var ids := if step.LogoutReads? then [step.sid] else step.sids;
    var uid := if step.LogoutReads? then step.sid else step.uid;
    LogoutBegins(c, m, step, ids, uid);
    if ids == [] {
      assert IdSet(ids) == {};
      RemoveNoSessions(m.sessions, uid);
    } else {
      var ns, more := LogoutLands(c, n, step.f);
      Joined(c, ms, steps, ns, more);
      ms, steps := ms + ns[1..], steps + more;
      assert ms[|steps|] == LoggedOut(n, step.f, uid, ids);
      assert n.flights - {step.f} == m.flights;
    }
  }

  lemma LogoutBegins(c: Config, m: Moment, step: Step, ids: seq<string>, uid: string)
    requires LoginsAlone(m) && NoEmptyIndex(m) && StartsLogout(step) && Possible(m, step)
    requires ids == if step.LogoutReads? then [step.sid] else step.sids
    requires uid == if step.LogoutReads? then step.sid else step.uid
    ensures NameNoIndex(m.sessions, ids)
    ensures Next(c, m, step) == if ids == [] then m else Fly(m, step.f, Deleting(uid, ids, !step.LogoutReads?))
    ensures forall s: State | s.sessions == m.sessions ::
              Apply(c, s, WholeLogout(step)).sessions == RemoveSessions(m.sessions, uid, IdSet(ids))
  {
    if step.LogoutReads? {
      assert IdSet(ids) == {step.sid};
    } else {
      forall id | id in ids ensures IndexNamed(id) == None {
        assert id in IdSet(ids);
        IndexNamedExactly(id, uid);
      }
    }
  }

  // ---------- Logins and refreshes without interference ----------

  /** A login that nothing comes between leaves the sessions that the whole request leaves. */
  lemma LoginUndisturbed(c: Config, m: Moment, f: nat, user: User, client: Client, sid: string, ids: PairIds, s: State)
    returns (ms: seq<Moment>)
    requires s.sessions == m.sessions && s.now == m.now
    requires Possible(m, LoginSignsRefresh(f, user, client, sid, ids.refreshJti))
    requires ids.accessJti !in m.uuids + {sid, ids.refreshJti}
    ensures Follows(c, ms, [LoginSignsRefresh(f, user, client, sid, ids.refreshJti), LoginSignsAccess(f, ids.accessJti),
                            LoginWrites(f), LoginIndexes(f)])
    ensures ms[0] == m && ms[4].flights == m.flights && ms[4].now == m.now
    ensures ms[4].sessions == Apply(c, s, Login(user, client, sid, ids)).sessions
    ensures ms[4].pairs == m.pairs + {Pair(sid, ids.accessJti, ids.refreshJti)}
    ensures ms[4].uuids == m.uuids + {sid, ids.refreshJti, ids.accessJti}
  {
    var steps := [LoginSignsRefresh(f, user, client, sid, ids.refreshJti), LoginSignsAccess(f, ids.accessJti),
                  LoginWrites(f), LoginIndexes(f)];
    var m1 := Next(c, m, steps[0]);
    var m2 := Next(c, m1, steps[1]);
    var data := NewSessionData(c, s, user, client, sid, ids);
    assert m2.flights[f] == LoginSigned(data);
    var m3 := Next(c, m2, steps[2]);
    var m4 := Next(c, m3, steps[3]);
    ms := [m, m1, m2, m3, m4];
    assert Happens(c, ms, steps, 0) && Happens(c, ms, steps, 1) && Happens(c, ms, steps, 2) && Happens(c, ms, steps, 3);
    assert m4.flights == m.flights;
  }

  /** A refresh that nothing comes between leaves the sessions that the whole request leaves. */
  lemma RefreshUndisturbed(c: Config, m: Moment, f: nat, sid: string, caller: Subject, ids: PairIds, s: State)
    returns (ms: seq<Moment>)
    requires Sound(m) && s.sessions == m.sessions && s.now == m.now && Possible(m, RefreshReads(f, sid))
    requires ids.refreshJti !in m.uuids && ids.accessJti !in m.uuids + {ids.refreshJti}
    ensures Follows(c, ms, [RefreshReads(f, sid), RefreshSignsRefresh(f, ids.refreshJti),
                            RefreshSignsAccess(f, ids.accessJti), RefreshWrites(f)])
    ensures ms[0] == m && ms[4].flights == m.flights && ms[4].now == m.now
    ensures ms[4].sessions == Apply(c, s, RefreshTokens(sid, caller, ids)).sessions
    ensures ms[4].pairs == m.pairs + {Pair(sid, ids.accessJti, ids.refreshJti)}
    ensures ms[4].uuids == m.uuids + {ids.refreshJti, ids.accessJti}
  {
    var data := RefreshedData(c, s, m.sessions.records[sid].data, ids);
    assert data.sessionId == sid;
    var ns := RefreshSigns(c, m, f, sid, ids, data);
    var signs := [RefreshReads(f, sid), RefreshSignsRefresh(f, ids.refreshJti), RefreshSignsAccess(f, ids.accessJti)];
    var m4 := RefreshEnds(c, m, ns[3], f, data);
    Joined(c, ns, signs, [ns[3], m4], [RefreshWrites(f)]);
    ms := ns + [ns[3], m4][1..];
    assert signs + [RefreshWrites(f)] ==
      [RefreshReads(f, sid), RefreshSignsRefresh(f, ids.refreshJti), RefreshSignsAccess(f, ids.accessJti),
       RefreshWrites(f)];
  }

  lemma RefreshEnds(c: Config, m: Moment, m3: Moment, f: nat, data: SessionData) returns (m4: Moment)
    requires f !in m.flights && m3.flights == m.flights[f := RefreshSigned(data)]
    ensures Follows(c, [m3, m4], [RefreshWrites(f)])
    ensures m4 == m3.(flights := m.flights, sessions := SessionModel.UpdateSession(m3.sessions, data, m3.now))
  {
    m4 := Next(c, m3, RefreshWrites(f));
    assert m4.flights == m.flights;
    OneStep(c, m3, RefreshWrites(f));
  }

  lemma RefreshSigns(c: Config, m: Moment, f: nat, sid: string, ids: PairIds, data: SessionData)
    returns (ms: seq<Moment>)
    requires Possible(m, RefreshReads(f, sid))
    requires ids.refreshJti !in m.uuids && ids.accessJti !in m.uuids + {ids.refreshJti}
    requires data == m.sessions.records[sid].data.(
                       jwtAccessId := ids.accessJti, expAcc := NowSeconds(m.now) + c.access,
                       jwtRefreshId := ids.refreshJti, expRef := NowSeconds(m.now) + c.refresh)
    ensures Follows(c, ms, [RefreshReads(f, sid), RefreshSignsRefresh(f, ids.refreshJti),
                            RefreshSignsAccess(f, ids.accessJti)])
    ensures ms[0] == m
    ensures ms[3] == m.(flights := m.flights[f := RefreshSigned(data)], pairs := m.pairs + {PairOf(data)},
                        uuids := m.uuids + {ids.refreshJti, ids.accessJti})
  {
    var steps := [RefreshReads(f, sid), RefreshSignsRefresh(f, ids.refreshJti), RefreshSignsAccess(f, ids.accessJti)];
    var m1 := Next(c, m, steps[0]);
    var m2 := Next(c, m1, steps[1]);
    var m3 := Next(c, m2, steps[2]);
    ms := [m, m1, m2, m3];
    assert Happens(c, ms, steps, 0) && Happens(c, ms, steps, 1) && Happens(c, ms, steps, 2);
    assert m3.flights == m.flights[f := RefreshSigned(data)];
    assert m3.uuids == m.uuids + {ids.refreshJti, ids.accessJti};
  }

  // ---------- When a session can be lost to its index ----------

  lemma ListedNameNoIndex(m: Moment, sids: seq<string>, uid: string)
    requires LoginsAlone(m) && IsListing(sids, IndexOf(m.sessions, uid))
    ensures NameNoIndex(m.sessions, sids)
  {
    forall id | id in sids ensures IndexNamed(id) == None {
      assert id in IdSet(sids);
      IndexNamedExactly(id, uid);
    }
  }

  /** A refresh has read the session, and then a whole logout everywhere of its owner has run. */
  ghost predicate ReadThenLoggedOut(m: Moment, n: Moment, f: nat, g: nat, sid: string, uid: string) {
    && n == m.(sessions := RemoveSessions(m.sessions, uid, IndexOf(m.sessions, uid)), flights := n.flights)
    && f in n.flights && n.flights[f].RefreshRead? && n.flights[f].data.userId == uid && g !in n.flights
    && (forall h | h in n.flights && h != f :: h in m.flights && n.flights[h] == m.flights[h])
    && sid !in n.sessions.records && sid !in IndexOf(n.sessions, uid) && CanWrite(n, f, sid)
  }

  lemma ReadThenLogout(c: Config, m: Moment, f: nat, g: nat, sid: string, uid: string, sids: seq<string>)
    returns (ms: seq<Moment>, steps: seq<Step>)
    requires Sound(m) && LoginsAlone(m) && f != g && f !in m.flights && g !in m.flights
    requires IsListing(sids, IndexOf(m.sessions, uid))
    requires Live(m.sessions, sid, m.now) && m.sessions.records[sid].data.userId == uid
    requires sid in IndexOf(m.sessions, uid)
    ensures Follows(c, ms, steps) && ms[0] == m && |steps| >= 2
    ensures steps[0] == RefreshReads(f, sid) && steps[1] == LogoutAllStarts(g, uid, sids)
    ensures forall i | 2 <= i < |steps| :: GoesOn(steps[i], g)
    ensures ReadThenLoggedOut(m, ms[|steps|], f, g, sid, uid)
  {
    ListedNameNoIndex(m, sids, uid);
    var m1, m2;
    ms, m1, m2 := ReadThenList(c, m, f, g, sid, uid, sids);
    var ns, more := LogoutLands(c, m2, g);
    Joined(c, ms, [RefreshReads(f, sid), LogoutAllStarts(g, uid, sids)], ns, more);
    ms, steps := ms + ns[1..], [RefreshReads(f, sid), LogoutAllStarts(g, uid, sids)] + more;
    assert ms[|steps|] == LoggedOut(m2, g, uid, sids);
  }

  lemma ReadThenList(c: Config, m: Moment, f: nat, g: nat, sid: string, uid: string, sids: seq<string>)
    returns (ms: seq<Moment>, m1: Moment, m2: Moment)
    requires Sound(m) && f != g && f !in m.flights && g !in m.flights && IsListing(sids, IndexOf(m.sessions, uid))
    requires Live(m.sessions, sid, m.now) && sid in IndexOf(m.sessions, uid)
    ensures Follows(c, ms, [RefreshReads(f, sid), LogoutAllStarts(g, uid, sids)]) && ms == [m, m1, m2] && sids != []
    ensures m1 == Fly(m, f, RefreshRead(m.sessions.records[sid].data)) && m2 == Fly(m1, g, Deleting(uid, sids, true))
    ensures m.sessions.records[sid].data.sessionId == sid && sid in IdSet(sids)
  {
    assert sid in sids;
    m1 := Next(c, m, RefreshReads(f, sid));
    m2 := Next(c, m1, LogoutAllStarts(g, uid, sids));
    ms := [m, m1, m2];
    assert Happens(c, ms, [RefreshReads(f, sid), LogoutAllStarts(g, uid, sids)], 0);
    assert Happens(c, ms, [RefreshReads(f, sid), LogoutAllStarts(g, uid, sids)], 1);
  }

  /**
    A refresh that reads a session, then a whole logout everywhere of its owner, then the refresh's two signatures
    and its write: the session is live again, with nothing in its owner's index.
   */
  lemma RefreshOutrunsLogout(c: Config, m: Moment, f: nat, g: nat, sid: string, sids: seq<string>)
    returns (ms: seq<Moment>, steps: seq<Step>, over: nat)
    requires Sound(m) && LoginsAlone(m) && c.refresh >= 0 && f != g && f !in m.flights && g !in m.flights
    requires Live(m.sessions, sid, m.now) && sid in IndexOf(m.sessions, m.sessions.records[sid].data.userId)
    requires IsListing(sids, IndexOf(m.sessions, m.sessions.records[sid].data.userId))
    ensures Follows(c, ms, steps) && ms[0] == m && |steps| == over + 3 && over >= 2
    ensures var uid := m.sessions.records[sid].data.userId;
            && steps[0] == RefreshReads(f, sid) && steps[1] == LogoutAllStarts(g, uid, sids)
            && (forall i | 2 <= i < over :: GoesOn(steps[i], g))
            && g !in ms[over].flights && !Live(ms[over].sessions, sid, ms[over].now)
            && ms[over].sessions == RemoveSessions(m.sessions, uid, IndexOf(m.sessions, uid))
            && (forall i | over <= i < over + 3 :: GoesOn(steps[i], f))
            && steps[over].RefreshSignsRefresh? && steps[over + 1].RefreshSignsAccess? && steps[over + 2].RefreshWrites?
            && Live(ms[over + 3].sessions, sid, ms[over + 3].now)
            && ms[over + 3].sessions.records[sid].data.userId == uid && !IsIndexed(ms[over + 3], uid, sid)
  {
    var uid := m.sessions.records[sid].data.userId;
    var ns, more := ReadThenLogout(c, m, f, g, sid, uid, sids);
    var n := ns[|more|];
    NotAboutToIndex(m, n, f, uid, sid);
    var ls, last := FlightLands(c, n, f, sid);
    Joined(c, ns, more, ls, last);
    ms, steps, over := ns + ls[1..], more + last, |more|;
    assert IndexOf(ls[3].sessions, uid) == IndexOf(n.sessions, uid);
  }

  lemma NotAboutToIndex(m: Moment, n: Moment, f: nat, uid: string, sid: string)
    requires LoginsAlone(m) && sid in IndexOf(m.sessions, uid)
    requires forall h | h in n.flights && h != f :: h in m.flights && n.flights[h] == m.flights[h]
    requires f in n.flights && !n.flights[f].LoginStored?
    ensures forall h, u :: !AboutToIndex(n, h, u, sid)
  {
    forall h, u ensures !AboutToIndex(n, h, u, sid) {
      if AboutToIndex(n, h, u, sid) {
        assert LogsIn(m, h, sid);
      }
    }
  }

  /** A login that has signed its pair, for a user whose index is empty; its record will be stored when it writes. */
  ghost predicate LoginToFirst(m: Moment, f: nat, uid: string, sid: string) {
    && CanWrite(m, f, sid) && m.flights[f].LoginSigned? && m.flights[f].data.userId == uid
    && IndexOf(m.sessions, uid) == {}
  }

  /** The two commands of such a login, one right after the other. */
  lemma LoginEnters(c: Config, m: Moment, f: nat, uid: string, sid: string) returns (ms: seq<Moment>)
    requires LoginToFirst(m, f, uid, sid) && LoginsAlone(m)
    ensures Follows(c, ms, [LoginWrites(f), LoginIndexes(f)]) && ms[0] == m
    ensures Live(ms[2].sessions, sid, ms[2].now) && ms[2].sessions.records[sid].data == m.flights[f].data
    ensures ms[2].flights == m.flights - {f} && ms[2].now == m.now && IndexOf(ms[2].sessions, uid) == {sid}
    ensures forall g, u :: !AboutToIndex(ms[2], g, u, sid)
  {
    WriteOutcome(m.sessions, sid, m.flights[f].data, m.now);
    var m1 := Next(c, m, LoginWrites(f));
    var m2 := Next(c, m1, LoginIndexes(f));
    OneStep(c, m, LoginWrites(f));
    OneStep(c, m1, LoginIndexes(f));
    Joined(c, [m, m1], [LoginWrites(f)], [m1, m2], [LoginIndexes(f)]);
    ms := [m, m1] + [m1, m2][1..];
    assert [LoginWrites(f)] + [LoginIndexes(f)] == [LoginWrites(f), LoginIndexes(f)];
    assert m1.flights - {f} == m.flights - {f};
    assert LogsIn(m, f, sid);
    forall g, u ensures !AboutToIndex(m2, g, u, sid) {
      assert AboutToIndex(m2, g, u, sid) ==> LogsIn(m, g, sid);
    }
  }

  /** A bulk logout finds its index empty, a login enters its first session, and the logout deletes the index's key. */
  lemma DropOutrunsLogin(c: Config, m: Moment, f: nat, g: nat, uid: string, sid: string) returns (ms: seq<Moment>)
    requires LoginsAlone(m) && LoginToFirst(m, f, uid, sid) && g in m.flights && m.flights[g] == Checking(uid)
    ensures Follows(c, ms, [ChecksIndex(g), LoginWrites(f), LoginIndexes(f), DropsIndex(g)]) && ms[0] == m
    ensures Lost(ms[4], sid)
  {
    var m1 := Next(c, m, ChecksIndex(g));
    assert m1 == Fly(m, g, Dropping(uid)) && f != g;
    OneStep(c, m, ChecksIndex(g));
    LogsInAlone(m, m1, g);
    var ns := LoginEnters(c, m1, f, uid, sid);
    Joined(c, [m, m1], [ChecksIndex(g)], ns, [LoginWrites(f), LoginIndexes(f)]);
    var n := Next(c, ns[2], DropsIndex(g));
    OneStep(c, ns[2], DropsIndex(g));
    Joined(c, [m, m1] + ns[1..], [ChecksIndex(g)] + [LoginWrites(f), LoginIndexes(f)], [ns[2], n], [DropsIndex(g)]);
    ms := [m, m1] + ns[1..] + [ns[2], n][1..];
    assert [ChecksIndex(g)] + [LoginWrites(f), LoginIndexes(f)] + [DropsIndex(g)]
        == [ChecksIndex(g), LoginWrites(f), LoginIndexes(f), DropsIndex(g)];
    forall h ensures !AboutToIndex(n, h, uid, sid) {
      assert !AboutToIndex(ns[2], h, uid, sid);
    }
  }

  /** A flight that is no login may move as it likes. */
  lemma LogsInAlone(m: Moment, n: Moment, g: nat)
    requires LoginsAlone(m) && n.sessions == m.sessions && n.uuids == m.uuids
    requires g in n.flights && LoginSid(n.flights[g]) == None && n.flights == m.flights[g := n.flights[g]]
    ensures LoginsAlone(n)
  {
    assert forall h, sid :: LogsIn(n, h, sid) ==> LogsIn(m, h, sid);
  }

  /**
    A logout carries the text "user:" and a user's id for a session id and finds no such key, as the user's index is
    empty; the user logs in; and the logout deletes the key it has read, which is the index's by now.
   */
  lemma ForeignLogoutOutrunsLogin(c: Config, m: Moment, f: nat, g: nat, uid: string, sid: string)
    returns (ms: seq<Moment>)
    requires LoginsAlone(m) && LoginToFirst(m, f, uid, sid) && g !in m.flights
    ensures Follows(c, ms, [LogoutReads(g, "user:" + uid), LoginWrites(f), LoginIndexes(f), DeletesRecord(g)])
    ensures ms[0] == m && Lost(ms[4], sid)
  {
    var text := "user:" + uid;
    IndexNamedExactly(text, uid);
    KeysCollide(text, uid);
    var m1 := Next(c, m, LogoutReads(g, text));
    assert m1 == Fly(m, g, Deleting(text, [text], false)) && f != g;
    OneStep(c, m, LogoutReads(g, text));
    LogsInAlone(m, m1, g);
    var ns := LoginEnters(c, m1, f, uid, sid);
    Joined(c, [m, m1], [LogoutReads(g, text)], ns, [LoginWrites(f), LoginIndexes(f)]);
    var n := Next(c, ns[2], DeletesRecord(g));
    OneStep(c, ns[2], DeletesRecord(g));
    Joined(c, [m, m1] + ns[1..], [LogoutReads(g, text)] + [LoginWrites(f), LoginIndexes(f)], [ns[2], n],
           [DeletesRecord(g)]);
    ms := [m, m1] + ns[1..] + [ns[2], n][1..];
    assert [LogoutReads(g, text)] + [LoginWrites(f), LoginIndexes(f)] + [DeletesRecord(g)]
        == [LogoutReads(g, text), LoginWrites(f), LoginIndexes(f), DeletesRecord(g)];
    IndexNamedExactly(sid, uid);
    assert LogsIn(m, f, sid);
    forall h ensures !AboutToIndex(n, h, uid, sid) {
      assert !AboutToIndex(ns[2], h, uid, sid);
    }
  }

  lemma UnusedFlight<T>(flights: map<nat, T>, avoid: nat) returns (f: nat)
    ensures f !in flights && f != avoid
  {
    f := FlightBound(flights.Keys + {avoid});
  }

  lemma FlightBound(fs: set<nat>) returns (n: nat)
    ensures forall f | f in fs :: f < n
  {
    if fs == {} {
      n := 0;
    } else {
      var some :| some in fs;
      var m := FlightBound(fs - {some});
      n := if some < m then m else some + 1;
      assert forall f | f in fs :: f == some || f in fs - {some};
    }
  }

  lemma SomeListing(members: set<string>) returns (ids: seq<string>)
    ensures IsListing(ids, members)
  {
    if members == {} {
      ids := [];
    } else {
      var some :| some in members;
      ids := SomeListing(members - {some});
      assert IdSet(ids + [some]) == IdSet(ids) + {some};
      assert some !in IdSet(ids);
      ids := ids + [some];
    }
  }

  lemma IndexedCanBeLost(c: Config, m: Moment, sid: string) returns (ms: seq<Moment>, steps: seq<Step>)
    requires Sound(m) && LoginsAlone(m) && c.refresh >= 0
    requires Live(m.sessions, sid, m.now) && sid in IndexOf(m.sessions, m.sessions.records[sid].data.userId)
    ensures Follows(c, ms, steps) && ms[0] == m && Lost(ms[|steps|], sid)
  {
    var f := UnusedFlight(m.flights, 0);
    var g := UnusedFlight(m.flights, f);
    var sids := SomeListing(IndexOf(m.sessions, m.sessions.records[sid].data.userId));
    var over;
    ms, steps, over := RefreshOutrunsLogout(c, m, f, g, sid, sids);
  }

  /** Any live session can be lost to its index. */
  lemma LiveCanBeLost(c: Config, m: Moment, sid: string) returns (ms: seq<Moment>, steps: seq<Step>)
    requires Sound(m) && LoginsAlone(m) && c.refresh >= 0 && Live(m.sessions, sid, m.now)
    ensures Follows(c, ms, steps) && ms[0] == m && Lost(ms[|steps|], sid)
  {
    var uid := m.sessions.records[sid].data.userId;
    if !IsIndexed(m, uid, sid) {
      ms, steps := [m], [];
    } else if sid in IndexOf(m.sessions, uid) {
      ms, steps := IndexedCanBeLost(c, m, sid);
    } else {
      var h :| AboutToIndex(m, h, uid, sid);
      var n := Next(c, m, LoginIndexes(h));
      OneStep(c, m, LoginIndexes(h));
      StepKeepsSound(c, m, LoginIndexes(h));
      StepKeepsLoginsAlone(c, m, LoginIndexes(h));
      var ns, more := IndexedCanBeLost(c, n, sid);
      Joined(c, [m, n], [LoginIndexes(h)], ns, more);
      ms, steps := [m, n] + ns[1..], [LoginIndexes(h)] + more;
    }
  }

  ghost predicate CanBeLost(c: Config, m: Moment, sid: string) {
    exists ms: seq<Moment>, steps: seq<Step>, k: nat | k < |ms| ::
      Follows(c, ms, steps) && ms[0] == m && Lost(ms[k], sid)
  }

  /**
    From a moment that interleavings reach, a session can come to be live and missing from its owner's index exactly
    if it is live or a request in flight can still make it so: one refresh and one logout are enough.
   */
  lemma CanBeLostExactly(c: Config, past: seq<Moment>, done: seq<Step>, sid: string)
    requires Follows(c, past, done) && Starts(past[0]) && c.refresh >= 0 && sid in past[|done|].uuids
    ensures var m := past[|done|];
            CanBeLost(c, m, sid) <==> Live(m.sessions, sid, m.now) || exists f :: CanWrite(m, f, sid)
  {
    var m := past[|done|];
    RunKeepsLoginsAlone(c, past, done, |done|);
    if Live(m.sessions, sid, m.now) {
      var ms, steps := LiveCanBeLost(c, m, sid);
    } else if f :| CanWrite(m, f, sid) {
      var ms, steps := FlightLands(c, m, f, sid);
      RunKeepsLoginsAlone(c, ms, steps, |steps|);
      var ns, more := LiveCanBeLost(c, ms[|steps|], sid);
      Joined(c, ms, steps, ns, more);
      assert Lost((ms + ns[1..])[|steps| + |more|], sid);
    } else {
      forall ms: seq<Moment>, steps: seq<Step>, k: nat | k < |ms| && Follows(c, ms, steps) && ms[0] == m
        ensures !Lost(ms[k], sid)
      {
        GoneStays(c, ms, steps, k, sid);
      }
    }
  }

  /** Some request in flight needs only its own steps to make the session live and missing from its index. */
  ghost predicate ReturnsLost(c: Config, m: Moment, sid: string) {
    exists f: nat, ms: seq<Moment>, steps: seq<Step> | |ms| == |steps| + 1 ::
      && f in m.flights && Follows(c, ms, steps) && ms[0] == m
      && (forall i | 0 <= i < |steps| :: GoesOn(steps[i], f)) && Lost(ms[|steps|], sid)
  }

  /**
    After a logout has been carried out - the session is gone from the store and from every index, and no login is at
    work on it - it can come back missing from its index exactly if a refresh that read it before can still write it;
    and then that refresh needs no other request to help.
   */
  lemma ReturnsLostExactly(c: Config, past: seq<Moment>, done: seq<Step>, sid: string)
    requires Follows(c, past, done) && Starts(past[0]) && c.refresh >= 0 && sid in past[|done|].uuids
    requires !Live(past[|done|].sessions, sid, past[|done|].now)
    requires forall uid :: sid !in IndexOf(past[|done|].sessions, uid)
    requires forall f :: !LogsIn(past[|done|], f, sid)
    ensures CanBeLost(c, past[|done|], sid) <==> exists f :: CanWrite(past[|done|], f, sid)
    ensures ReturnsLost(c, past[|done|], sid) <==> exists f :: CanWrite(past[|done|], f, sid)
  {
    var m := past[|done|];
    CanBeLostExactly(c, past, done, sid);
    if f :| CanWrite(m, f, sid) {
      assert IsRefresh(m.flights[f]) by {
        assert !LogsIn(m, f, sid);
      }
      var ms, steps := FlightLands(c, m, f, sid);
      forall g, uid ensures !AboutToIndex(ms[|steps|], g, uid, sid) {
        assert AboutToIndex(m, g, uid, sid) ==> LogsIn(m, g, sid);
      }
      var uid := ms[|steps|].sessions.records[sid].data.userId;
      assert sid !in IndexOf(m.sessions, uid) && IndexOf(ms[|steps|].sessions, uid) == IndexOf(m.sessions, uid);
      assert Lost(ms[|steps|], sid);
    }
  }
}
