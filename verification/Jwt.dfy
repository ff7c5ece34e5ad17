/** Minting and decoding of tokens. The signature is ideal: a token verifies iff it was signed here. */
module Jwt {
  import opened Base

  const ISSUER := "sample-auth-api"
  const AUDIENCE := "sample-app"

  datatype Kind = Access | Refresh

  // The payload of a JWT. Refresh tokens carry no audience, email or name.
  datatype Claims = Claims(
    iss: string,
    sub: UserId,
    aud: Option<string>,
    iat: nat,
    exp: nat,
    jti: Jti,
    kind: Kind,
    deviceId: DeviceId,
    email: Option<string>,
    name: Option<string>
  )

  datatype AccessPayload = AccessPayload(
    sub: UserId, email: string, name: string, deviceId: DeviceId, jti: Jti, exp: nat, iat: nat)

  datatype RefreshPayload = RefreshPayload(
    sub: UserId, deviceId: DeviceId, jti: Jti, exp: nat, iat: nat)

  // PyJWT writes a datetime as a whole number of seconds, dropping the fraction.
  function NumericDate(t: nat): nat {
    t / SECOND
  }

  function AccessExpiry(cfg: Config, now: nat): nat {
    now + cfg.accessSeconds * SECOND
  }

  function RefreshExpiry(cfg: Config, now: nat): nat {
    now + cfg.refreshSeconds * SECOND
  }

  function AccessClaims(cfg: Config, userId: UserId, email: string, name: string,
                        deviceId: DeviceId, jti: Jti, now: nat): Claims
  {
    Claims(ISSUER, userId, Some(AUDIENCE), NumericDate(now), NumericDate(AccessExpiry(cfg, now)),
           jti, Access, deviceId, Some(email), Some(name))
  }

  function RefreshClaims(cfg: Config, userId: UserId, deviceId: DeviceId, jti: Jti, now: nat): Claims {
    Claims(ISSUER, userId, None, NumericDate(now), NumericDate(RefreshExpiry(cfg, now)),
           jti, Refresh, deviceId, None, None)
  }

  function DecodeAccess(signed: set<Claims>, token: Claims, now: nat): Result<AccessPayload, Error> {
    if token !in signed then Err(InvalidToken)
    else if Instant(token.iat) > now then Err(InvalidToken)
    else if Instant(token.exp) <= now then Err(TokenExpired)
    else if token.iss != ISSUER then Err(InvalidToken)
    else if token.aud != Some(AUDIENCE) then Err(InvalidToken)
    else if token.kind != Access then Err(InvalidToken)
    else if token.email.None? || token.name.None? then Err(MissingClaim)
    else Ok(AccessPayload(token.sub, token.email.value, token.name.value, token.deviceId, token.jti,
                          Instant(token.exp), Instant(token.iat)))
  }

  function DecodeRefresh(signed: set<Claims>, token: Claims, now: nat): Result<RefreshPayload, Error> {
    if token !in signed then Err(InvalidRefreshToken(NoAlert))
    else if Instant(token.iat) > now then Err(InvalidRefreshToken(NoAlert))
    else if Instant(token.exp) <= now then Err(SessionExpired)
    else if token.iss != ISSUER then Err(InvalidRefreshToken(NoAlert))
    else if token.kind != Refresh then Err(InvalidRefreshToken(NoAlert))
    else Ok(RefreshPayload(token.sub, token.deviceId, token.jti, Instant(token.exp), Instant(token.iat)))
  }

  // The private key, seen as the set of payloads it has signed.
  class JwtService {
    const cfg: Config
    var signed: set<Claims>

    constructor (cfg: Config)
      ensures this.cfg == cfg && signed == {}
    {
      this.cfg := cfg;
      signed := {};
    }

    method CreateAccessToken(userId: UserId, email: string, name: string, deviceId: DeviceId, jti: Jti, now: nat)
      returns (token: Claims, exp: nat)
      modifies this
      ensures token == AccessClaims(cfg, userId, email, name, deviceId, jti, now)
      ensures exp == AccessExpiry(cfg, now)
      ensures signed == old(signed) + {token}
    {
      exp := now + cfg.accessSeconds * SECOND;
      token := Claims(ISSUER, userId, Some(AUDIENCE), NumericDate(now), NumericDate(exp),
                      jti, Access, deviceId, Some(email), Some(name));
      signed := signed + {token};
    }

    method CreateRefreshToken(userId: UserId, deviceId: DeviceId, jti: Jti, now: nat)
      returns (token: Claims, exp: nat)
      modifies this
      ensures token == RefreshClaims(cfg, userId, deviceId, jti, now)
      ensures exp == RefreshExpiry(cfg, now)
      ensures signed == old(signed) + {token}
    {
      exp := now + cfg.refreshSeconds * SECOND;
      token := Claims(ISSUER, userId, None, NumericDate(now), NumericDate(exp),
                      jti, Refresh, deviceId, None, None);
      signed := signed + {token};
    }
  }

  // decode after create restores identity fields exactly and the dates truncated to the second,
  // at every instant from minting until the truncated expiry and at no later one.
  lemma AccessRoundTrip(cfg: Config, signed: set<Claims>, userId: UserId, email: string, name: string,
                        deviceId: DeviceId, jti: Jti, minted: nat, now: nat)
    requires minted <= now
    ensures
      var token := AccessClaims(cfg, userId, email, name, deviceId, jti, minted);
      var exp := AccessExpiry(cfg, minted) - AccessExpiry(cfg, minted) % SECOND;
      DecodeAccess(signed + {token}, token, now) ==
        if now < exp
        then Ok(AccessPayload(userId, email, name, deviceId, jti, exp, minted - minted % SECOND))
        else Err(TokenExpired)
  {
  }

  lemma RefreshRoundTrip(cfg: Config, signed: set<Claims>, userId: UserId, deviceId: DeviceId, jti: Jti,
                         minted: nat, now: nat)
    requires minted <= now
    ensures
      var token := RefreshClaims(cfg, userId, deviceId, jti, minted);
      var exp := RefreshExpiry(cfg, minted) - RefreshExpiry(cfg, minted) % SECOND;
      DecodeRefresh(signed + {token}, token, now) ==
        if now < exp
        then Ok(RefreshPayload(userId, deviceId, jti, exp, minted - minted % SECOND))
        else Err(SessionExpired)
  {
  }

  // No token, at whatever instants it is presented, is accepted by both decoders.
  lemma NeverBothKinds(signed: set<Claims>, token: Claims, now: nat, later: nat)
    ensures DecodeAccess(signed, token, now).Err? || DecodeRefresh(signed, token, later).Err?
  {
  }
}
