/**
  Signed tokens and the three places that accept them: `verify` of `src/modules/auth/jwt.service.ts` and the two
  passport strategies. A token carries its header's key id, the identity of the key that signed it, and its
  claims (`exp` and `jti` of RFC 7519, sections 4.1.4 and 4.1.7; `kid` of RFC 7515, section 4.1.4). A signature
  checks out under exactly the key that made it.
 */
module Tokens {
  import opened Options
  import opened Uuids
  import opened KeyModel
  import opened SessionModel

  /** Who a token is about; a refresh by a caller for whom no active user was found leaves every part missing. */
  datatype Subject = Subject(sub: Option<string>, email: Option<string>, name: Option<string>)

  datatype Claims = Claims(subject: Subject, sessionId: Option<string>, jti: Option<string>, exp: int)

  datatype Token = Token(kid: Option<string>, signedBy: string, claims: Claims)

  /** The seconds since the epoch in which `now` (ms) falls. */
  function NowSeconds(now: int): int {
    now / 1000
  }

  function Sign(kid: string, subject: Subject, sessionId: Option<string>, jti: string, life: int, now: int): Token {
    Token(Some(kid), kid, Claims(subject, sessionId, Some(jti), NowSeconds(now) + life))
  }

  /** Signature and expiry, as the JWT library checks them with the public key of `kid`. */
  predicate LibraryAccepts(token: Token, kid: string, now: int) {
    token.signedBy == kid && !(NowSeconds(now) >= token.claims.exp)
  }

  /** `verify`: it throws where the lookup of the header's key id does, otherwise gives the claims or a refusal. */
  function Verify(keys: Keys, token: Token, kind: KeyType, now: int): Outcome<Option<Claims>> {
    match LookUp(keys, token.kid)
    case Thrown => Thrown
    case Returned(None) => Returned(None)
    case Returned(Some(key)) =>
      if key.kind == kind && LibraryAccepts(token, token.kid.value, now) then Returned(Some(token.claims))
      else Returned(None)
  }

  // ---------- Sessions behind tokens ----------

  datatype TokenValidationType = Access | Refresh

  /** The session id a key is built from; a missing claim becomes the text "undefined". */
  function SessionIdText(claims: Claims): string {
    if claims.sessionId.Some? then claims.sessionId.value else "undefined"
  }

  function ValidateSession(m: Sessions, claims: Claims, validation: TokenValidationType, now: int): bool {
    if !Live(m, SessionIdText(claims), now) then false
    else
      var dataSession := m.records[SessionIdText(claims)].data;
      match validation
      case Access => claims.jti == Some(dataSession.jwtAccessId)
      case Refresh => claims.jti == Some(dataSession.jwtRefreshId)
  }

  /** `jwt.strategy.ts`: no key id, a failing lookup, an unknown key or one of another type stop the token. */
  function JwtStrategyAccepts(keys: Keys, m: Sessions, token: Token, now: int): bool {
    if token.kid.None? || token.kid.value == "" then false
    else
      match LookUp(keys, token.kid)
      case Thrown => false
      case Returned(None) => false
      case Returned(Some(key)) =>
        key.kind == AccessKey && LibraryAccepts(token, token.kid.value, now)
        && ValidateSession(m, token.claims, Access, now)
  }

  /** `refresh.strategy.ts`: the missing key id surfaces as an error of the key lookup. */
  function RefreshStrategyAccepts(keys: Keys, m: Sessions, token: Token, now: int): bool {
    match Verify(keys, token, RefreshKey, now)
    case Thrown => false
    case Returned(None) => false
    case Returned(Some(claims)) => ValidateSession(m, claims, Refresh, now)
  }

  /** While its key is in the table a signed token verifies under that key's type only, and until `exp` only. */
  lemma SignedVerifiesExactly(keys: Keys, kid: string, subject: Subject, sessionId: Option<string>, jti: string,
                              life: int, signedAt: int, kind: KeyType, now: int)
    requires IsUuid(kid)
    ensures var token := Sign(kid, subject, sessionId, jti, life, signedAt);
            Verify(keys, token, kind, now) ==
              if kid in keys && keys[kid].kind == kind && now < (NowSeconds(signedAt) + life) * 1000
              then Returned(Some(Claims(subject, sessionId, Some(jti), NowSeconds(signedAt) + life)))
              else Returned(None)
  {
    assert now < (NowSeconds(signedAt) + life) * 1000 <==> NowSeconds(now) < NowSeconds(signedAt) + life;
  }
}
