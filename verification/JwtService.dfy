/** `src/modules/auth/jwt.service.ts`: signing with the current key of a type, and verifying by key id. */
module JwtServices {
  import opened Options
  import opened Uuids
  import opened KeyModel
  import opened KeyServices
  import opened Tokens
  import opened AuthSystem

  /** What is drawn or decided outside while a pair is signed: UUIDs, and whether a needed key can be created. */
  datatype Draw = Draw(sid: string, refreshKid: string, refreshJti: string, accessKid: string, accessJti: string,
                       refreshSaved: bool, accessSaved: bool)

  /** New UUIDs: unlike each other and anything handed out before. */
  ghost predicate IsFresh(d: Draw, uuids: set<string>) {
    && IsUuid(d.refreshKid) && IsUuid(d.accessKid)
    && {d.sid, d.refreshKid, d.refreshJti, d.accessKid, d.accessJti} !! uuids
    && d.sid !in {d.refreshKid, d.refreshJti, d.accessKid, d.accessJti}
    && d.refreshKid !in {d.refreshJti, d.accessKid, d.accessJti}
    && d.refreshJti !in {d.accessKid, d.accessJti} && d.accessKid != d.accessJti
  }

  datatype JwtResponse = JwtResponse(accessToken: Token, refreshToken: Token, sessionId: string)

  function IdsOf(r: JwtResponse, d: Draw): PairIds {
    PairIds(r.refreshToken.signedBy, d.refreshJti, r.accessToken.signedBy, d.accessJti)
  }

  /** `r` is a pair that `signTokens` may return in `s`, leaving the key table `keys`. */
  ghost predicate SignedFrom(c: Config, s: State, subject: Subject, r: JwtResponse, d: Draw, keys: Keys) {
    var t := AfterTokens(c, s, subject, r.sessionId, IdsOf(r, d));
    && CanSignTokens(c, s, subject, r.sessionId, IdsOf(r, d)) && keys == t.keys
    && Issued(RefreshKey, r.refreshToken) in t.issued && Issued(AccessKey, r.accessToken) in t.issued
    && Carries(r.refreshToken, subject, r.sessionId, d.refreshJti, NowSeconds(s.now) + c.refresh)
    && Carries(r.accessToken, subject, r.sessionId, d.accessJti, NowSeconds(s.now) + c.access)
  }

  /** A token says who it is about, under which session, as which token, and until when; its header names its key. */
  predicate Carries(token: Token, subject: Subject, sid: string, jti: string, exp: int) {
    && token.kid == Some(token.signedBy) && token.claims.subject == subject
    && token.claims.sessionId == Some(sid) && token.claims.jti == Some(jti) && token.claims.exp == exp
  }

  /** There is no key to sign with, and none can be made now. */
  ghost predicate NoKeyFor(keys: Keys, kind: KeyType, busy: bool, saved: bool) {
    NoneUsable(keys, kind) && (busy || !saved)
  }

  lemma OtherKindsKeepNone(keys: Keys, kind: KeyType, kid: string, now: int, other: KeyType)
    requires kind != other && kid !in keys
    ensures NoneUsable(AddKey(keys, kind, kid, now), other) <==> NoneUsable(keys, other)
  {
    var after := AddKey(keys, kind, kid, now);
    assert forall k :: Usable(after, other, k) <==> Usable(keys, other, k);
  }

  class JwtServiceLocal {
    const keyService: KeyService
    const config: Config

    constructor (keyService: KeyService, config: Config)
      ensures this.keyService == keyService && this.config == config
    {
      this.keyService, this.config := keyService, config;
    }

    /** The body all four signers share: the current key of `kind`, made now if there is none, signs the claims. */
    method SignWithCurrentKey(kind: KeyType, subject: Subject, sessionId: Option<string>, jwtId: string,
                              newKid: string, saved: bool, now: int) returns (r: Outcome<Token>)
      modifies keyService
      ensures keyService.isKeyBeingCreated == old(keyService.isKeyBeingCreated)
      ensures r.Thrown? ==> keyService.rows == old(keyService.rows)
      ensures r.Thrown? <==> NoKeyFor(old(keyService.rows), kind, keyService.isKeyBeingCreated, saved)
      ensures r.Returned? ==>
                && r.value == Sign(r.value.signedBy, subject, sessionId, jwtId, config.Life(kind), now)
                && if NoneUsable(old(keyService.rows), kind)
                   then r.value.signedBy == newKid && keyService.rows == AddKey(old(keyService.rows), kind, newKid, now)
                   else keyService.rows == old(keyService.rows) && IsCurrent(keyService.rows, kind, r.value.signedBy)
    {
      var key := keyService.GetCurrentKey(kind, newKid, now, saved);
      if key.Thrown? {
        return Thrown;
      }
      r := Returned(Sign(key.value, subject, sessionId, jwtId, config.Life(kind), now));
    }

    /**
      The refresh token first, then the access token under the same session id, drawn only if none is given.
      `s` is the system's state as the call begins.
     */
    method SignTokens(subject: Subject, sessionId: Option<string>, d: Draw, now: int, ghost s: State)
      returns (r: Outcome<JwtResponse>)
      requires s.keys == keyService.rows && s.now == now && KeysKnown(s)
      requires IsFresh(d, s.uuids - if sessionId.None? then {d.sid} else {})
      modifies keyService
      ensures keyService.isKeyBeingCreated == old(keyService.isKeyBeingCreated)
      ensures r.Thrown? ==> keyService.rows == s.keys || keyService.rows == WithKey(s, RefreshKey, d.refreshKid).keys
      ensures r.Thrown? <==>
                || NoKeyFor(s.keys, RefreshKey, keyService.isKeyBeingCreated, d.refreshSaved)
                || NoKeyFor(s.keys, AccessKey, keyService.isKeyBeingCreated, d.accessSaved)
      ensures r.Returned? ==> r.value.sessionId == if sessionId.Some? then sessionId.value else d.sid
      ensures r.Returned? ==> SignedFrom(config, s, subject, r.value, d, keyService.rows)
    {
      var sid := if sessionId.Some? then sessionId.value else d.sid;
      var refresh :=
        SignWithCurrentKey(RefreshKey, subject, Some(sid), d.refreshJti, d.refreshKid, d.refreshSaved, now);
      if refresh.Thrown? {
        return Thrown;
      }
      if NoneUsable(s.keys, RefreshKey) {
        OtherKindsKeepNone(s.keys, RefreshKey, d.refreshKid, now, AccessKey);
      }
      ghost var t := AfterSigning(config, s, RefreshKey, refresh.value.signedBy, d.refreshJti, subject, Some(sid));
      assert keyService.rows == t.keys;
      var access := SignWithCurrentKey(AccessKey, subject, Some(sid), d.accessJti, d.accessKid, d.accessSaved, now);
      if access.Thrown? {
        return Thrown;
      }
      r := Returned(JwtResponse(access.value, refresh.value, sid));
      assert Issued(RefreshKey, refresh.value) in t.issued;
      assert Issued(AccessKey, access.value) in AfterTokens(config, s, subject, sid, IdsOf(r.value, d)).issued;
    }

    method Verify(token: Token, kind: KeyType, now: int) returns (r: Outcome<Option<Claims>>)
      ensures r == Tokens.Verify(keyService.rows, token, kind, now)
    {
      var key := keyService.GetKeyById(token.kid);
      if key.Thrown? {
        return Thrown;
      }
      if key.value.None? || key.value.value.kind != kind {
        return Returned(None);
      }
      r := Returned(if LibraryAccepts(token, token.kid.value, now) then Some(token.claims) else None);
    }
  }
}
