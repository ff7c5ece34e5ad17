/**
 Requests at the granularity of single Redis commands. A thread is what a request still has to send;
 everything its handler decides without Redis (decoding, rows, clock readings of its own) is an input of the thread.
 */
module Commands {
  import opened Base
  import opened Jwt
  import opened TypedRedis

  datatype Verdict = Granted | Refused

  // What store_refresh_token was called with; stamp is its own reading of the clock.
  datatype StoreArgs = StoreArgs(jti: Jti, client: StoredClient, expiresAt: nat, stamp: nat)

  datatype Thread =
    | Get(token: Claims, present: bool, args: StoreArgs)
    | SetEx(u: UserId, d: DeviceId, args: StoreArgs)
    | SAdd(u: UserId, d: DeviceId)
    | Del(u: UserId, d: DeviceId, verdict: Verdict)
    | SRem(u: UserId, d: DeviceId, verdict: Verdict)
    | Exists(u: UserId, jti: Jti, rest: Thread)
    | SetBlacklisted(u: UserId, jti: Jti, record: BlRecord, ttl: nat, rest: Thread)
    | SMembers(u: UserId)
    | Pipeline(u: UserId, ids: set<DeviceId>)
    | Finished(u: UserId, verdict: Verdict)

  function Owner(th: Thread): UserId {
    if th.Get? then th.token.sub else th.u
  }

  // ---- The programs ----

  function Store(u: UserId, d: DeviceId, args: StoreArgs): Thread {
    if TotalSeconds(args.expiresAt - args.stamp) <= 0 then Finished(u, Granted) else SetEx(u, d, args)
  }

  // A refresh whose token decoded and whose device matched; present says whether the user row will be found.
  function RefreshProgram(token: Claims, present: bool, args: StoreArgs): Thread {
    Get(token, present, args)
  }

  function LoginProgram(u: UserId, d: DeviceId, args: StoreArgs): Thread {
    Store(u, d, args)
  }

  // The blacklist entry of a logout, which read the clock at stamp; its TTL may turn out not positive.
  function Revoking(token: Claims, record: BlRecord, stamp: nat, rest: Thread): Thread {
    var ttl := TotalSeconds(Instant(token.exp) - stamp);
    if ttl <= 0 then rest else SetBlacklisted(token.sub, token.jti, record, ttl, rest)
  }

  function LogoutRecord(token: Claims, revoke: nat): BlRecord {
    BlRecord(token.sub, token.deviceId, "logout", revoke / SECOND)
  }

  function LogoutAllRecord(token: Claims, revoke: nat): BlRecord {
    BlRecord(token.sub, "all", "logout_all", revoke / SECOND)
  }

  function LogoutProgram(token: Claims, stamp: nat, revoke: nat): Thread {
    Exists(token.sub, token.jti,
           Revoking(token, LogoutRecord(token, revoke), stamp, Del(token.sub, token.deviceId, Granted)))
  }

  function LogoutAllProgram(token: Claims, stamp: nat, revoke: nat): Thread {
    Exists(token.sub, token.jti, Revoking(token, LogoutAllRecord(token, revoke), stamp, SMembers(token.sub)))
  }

  // change_password and delete_account, once the rows let them through.
  function RevokeAllProgram(token: Claims): Thread {
    Exists(token.sub, token.jti, SMembers(token.sub))
  }

  function ForceLogoutProgram(token: Claims, target: DeviceId): Thread {
    Exists(token.sub, token.jti, Del(token.sub, target, Granted))
  }

  // The device list, and any protected request its service refuses: nothing after the EXISTS of get_current_user.
  function ReadOnlyProgram(token: Claims, verdict: Verdict): Thread {
    Exists(token.sub, token.jti, Finished(token.sub, verdict))
  }

  // ---- One command ----

  function Next(th: Thread, r: RedisState, now: nat): Thread {
    match th
    case Get(token, present, args) =>
      var stored := GetRt(r, token.sub, token.deviceId, now);
      if stored.None? then Finished(token.sub, Refused)
      else if stored.value.tokenId != token.jti then Del(token.sub, token.deviceId, Refused)
      else if !present then Finished(token.sub, Refused)
      else Store(token.sub, token.deviceId, args)
    case SetEx(u, d, _) => SAdd(u, d)
    case SAdd(u, _) => Finished(u, Granted)
    case Del(u, d, verdict) => SRem(u, d, verdict)
    case SRem(u, _, verdict) => Finished(u, verdict)
    case Exists(u, jti, rest) => if Blacklisted(r, jti, now) then Finished(u, Refused) else rest
    case SetBlacklisted(_, _, _, _, rest) => rest
    case SMembers(u) => Pipeline(u, Indexed(r, u))
    case Pipeline(u, _) => Finished(u, Granted)
    case Finished(_, _) => th
  }

  function Write(th: Thread, r: RedisState, now: nat): RedisState {
    match th
    case SetEx(u, d, args) =>
      SetRt(r, u, d, Timed(RtRecord(args.jti, u, d, args.client, args.stamp / SECOND, args.expiresAt / SECOND),
                           now + Seconds(args.expiresAt - args.stamp) * SECOND))
    case SAdd(u, d) => AddIndex(r, u, d)
    case Del(u, d, _) => DropRt(r, u, d)
    case SRem(u, d, _) => RemoveIndex(r, u, d)
    case SetBlacklisted(_, jti, record, ttl, _) => SetBlacklist(r, jti, Timed(record, now + ttl * SECOND))
    case Pipeline(u, ids) => Wipe(r, u, ids)
    case _ => r
  }

  // A TTL, known to be positive where it is used.
  function Seconds(delta: int): nat {
    if TotalSeconds(delta) > 0 then TotalSeconds(delta) else 0
  }

  // ---- A thread on its own, one timestamp a command ----

  function Alone(th: Thread, r: RedisState, times: seq<nat>): (Thread, RedisState)
    decreases |times|
  {
    if times == [] then (th, r) else Alone(Next(th, r, times[0]), Write(th, r, times[0]), times[1..])
  }
}
