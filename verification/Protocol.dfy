/**
 The session protocol as a state machine: one step is one whole request, whose database work is a transaction
 that may still fail to commit, and whose Redis work and minted tokens stay whatever happens to it.
 */
module Protocol {
  import opened Base
  import opened Jwt
  import opened TypedRedis
  import opened Database

  datatype World = World(redis: RedisState, db: DbState, signed: set<Claims>)

  const INIT := World(EMPTY, NO_ROWS, {})

  // The fresh UUIDs a request draws are arguments of its call.
  datatype Call =
    | SignupCall(newId: UserId, email: string, password: string, name: string)
    | LoginCall(email: string, password: string, device: DeviceId, client: ClientInfo, atId: Jti, rtId: Jti)
    | RefreshCall(token: Claims, device: DeviceId, client: ClientInfo, atId: Jti, rtId: Jti)
    | LogoutCall(token: Claims, device: DeviceId)
    | LogoutAllCall(token: Claims, device: DeviceId)
    | ChangePasswordCall(token: Claims, device: DeviceId, current: string, next: string)
    | DeleteAccountCall(token: Claims, device: DeviceId, password: string)
    | ForceLogoutCall(token: Claims, device: DeviceId, target: DeviceId)
    | ListDevicesCall(token: Claims, device: DeviceId)
  {
    // The endpoints behind get_current_user.
    predicate Protected() {
      !SignupCall? && !LoginCall? && !RefreshCall?
    }
  }

  datatype DeviceInfo = DeviceInfo(
    deviceId: DeviceId, deviceName: Option<string>, osType: string, osVersion: Option<string>,
    appVersion: Option<string>, lastLoginAt: nat, lastAccessAt: nat, ip: Option<string>, isCurrent: bool)

  datatype Response =
    | SignedUp(userId: UserId, email: string, name: string)
    | LoggedIn(access: Claims, refresh: Claims, userId: UserId, email: string, name: string)
    | Refreshed(access: Claims, refresh: Claims)
    | LoggedOut
    | LoggedOutAll(count: nat)
    | PasswordChanged
    | AccountDeleted
    | DeviceLoggedOut
    | DeviceList(devices: set<DeviceInfo>)

  // How the handler ends: with a response, or by raising.
  datatype Outcome = Done(response: Response) | Failed(error: Error)

  // ---- get_current_user ----

  function Authenticate(w: World, token: Claims, device: DeviceId, t: Timing): Result<AccessPayload, Error> {
    var payload := DecodeAccess(w.signed, token, t.decode);
    if payload.Err? then payload
    else if payload.value.deviceId != device then Err(DeviceMismatch)
    else if Blacklisted(w.redis, payload.value.jti, t.read) then Err(TokenRevoked)
    else payload
  }

  // ---- The handlers ----

  // What login and refresh pass on of their headers to the token store.

  function LoginClient(client: ClientInfo): StoredClient {
    StoredClient(client.deviceName, Some(OsType(client)), client.appVersion, client.ip)
  }

  function RefreshClient(client: ClientInfo): StoredClient {
    StoredClient(client.deviceName, client.osType, client.appVersion, client.ip)
  }

  function ClientOf(call: Call): StoredClient
    requires call.LoginCall? || call.RefreshCall?
  {
    if call.LoginCall? then LoginClient(call.client) else RefreshClient(call.client)
  }

  ghost function Signup(w: World, newId: UserId, email: string, password: string, name: string): (World, Outcome) {
    match FindByEmail(w.db, email)
    case OneRow(_) => (w, Failed(EmailAlreadyExists))
    case ManyRows => (w, Failed(MultipleRowsFound))
    case NoRow =>
      if newId in w.db.users || EmailTaken(w.db, email) then (w, Failed(EmailAlreadyExists))
      else
        var row := UserRow(email, HashPassword(password), name, Active, None);
        (w.(db := PutUser(w.db, newId, row)), Done(SignedUp(newId, email, name)))
  }

  function Login(cfg: Config, w: World, u: UserId, call: Call, t: Timing): (World, Outcome)
    requires call.LoginCall?
    requires u in w.db.users
  {
    var row := w.db.users[u];
    var at := AccessClaims(cfg, u, row.email, row.name, call.device, call.atId, t.mintAt);
    var rt := RefreshClaims(cfg, u, call.device, call.rtId, t.mintRt);
    (World(StoreRefresh(w.redis, u, call.device, call.rtId, LoginClient(call.client),
                        RefreshExpiry(cfg, t.mintRt), t.stamp, t.exec),
           UpsertDevice(w.db, u, call.device, call.client, t.upsert),
           w.signed + {at} + {rt}),
     Done(LoggedIn(at, rt, u, row.email, row.name)))
  }

  ghost function TryLogin(cfg: Config, w: World, call: Call, t: Timing): (World, Outcome)
    requires call.LoginCall?
  {
    match FindByEmail(w.db, call.email)
    case NoRow => (w, Failed(InvalidCredentials))
    case ManyRows => (w, Failed(MultipleRowsFound))
    case OneRow(u) =>
      if !VerifyPassword(call.password, w.db.users[u].hashedPassword) then (w, Failed(InvalidCredentials))
      else if w.db.users[u].status == Inactive then (w, Failed(AccountSuspended))
      else if w.db.users[u].status == Withdrawn then (w, Failed(AccountWithdrawn))
      else Login(cfg, w, u, call, t)
  }

  function TryRefresh(cfg: Config, w: World, call: Call, t: Timing): (World, Outcome)
    requires call.RefreshCall?
  {
    var decoded := DecodeRefresh(w.signed, call.token, t.decode);
    if decoded.Err? then (w, Failed(decoded.error))
    else
      var p := decoded.value;
      if p.deviceId != call.device then (w, Failed(InvalidRefreshToken(DeviceMismatchAlert)))
      else
        var stored := GetRt(w.redis, p.sub, call.device, t.read);
        if stored.None? then (w, Failed(InvalidRefreshToken(NoAlert)))
        else if stored.value.tokenId != p.jti then
          (w.(redis := DeleteRefresh(w.redis, p.sub, call.device)), Failed(InvalidRefreshToken(ReuseAlert)))
        else if !Present(w.db, p.sub) then (w, Failed(InvalidRefreshToken(NoAlert)))
        else
          var row := w.db.users[p.sub];
          var at := AccessClaims(cfg, p.sub, row.email, row.name, call.device, call.atId, t.mintAt);
          var rt := RefreshClaims(cfg, p.sub, call.device, call.rtId, t.mintRt);
          (World(StoreRefresh(w.redis, p.sub, call.device, call.rtId, RefreshClient(call.client),
                              RefreshExpiry(cfg, t.mintRt), t.stamp, t.exec),
                 w.db, w.signed + {at} + {rt}),
           Done(Refreshed(at, rt)))
  }

  function Logout(w: World, p: AccessPayload, t: Timing): (World, Outcome) {
    var ttl := TotalSeconds(p.exp - t.stamp);
    var redis := Blacklist(w.redis, p.jti, BlRecord(p.sub, p.deviceId, "logout", t.revoke / SECOND), ttl, t.exec);
    (w.(redis := DeleteRefresh(redis, p.sub, p.deviceId), db := Deactivate(w.db, p.sub, {p.deviceId})),
     Done(LoggedOut))
  }

  function LogoutAll(w: World, p: AccessPayload, t: Timing): (World, Outcome) {
    var ttl := TotalSeconds(p.exp - t.stamp);
    var redis := Blacklist(w.redis, p.jti, BlRecord(p.sub, "all", "logout_all", t.revoke / SECOND), ttl, t.exec);
    (w.(redis := DeleteAll(redis, p.sub), db := Deactivate(w.db, p.sub, ActiveDevices(w.db, p.sub))),
     Done(LoggedOutAll(|Indexed(redis, p.sub)|)))
  }

  // Every refresh token and every device row of u, in both stores.
  function RevokeAll(w: World, u: UserId): World {
    w.(redis := DeleteAll(w.redis, u), db := Deactivate(w.db, u, ActiveDevices(w.db, u)))
  }

  function ChangePassword(w: World, u: UserId, current: string, next: string): (World, Outcome) {
    if !Present(w.db, u) then (w, Failed(UserNotFound))
    else if !VerifyPassword(current, w.db.users[u].hashedPassword) then (w, Failed(CurrentPasswordMismatch))
    else if VerifyPassword(next, w.db.users[u].hashedPassword) then (w, Failed(SamePassword))
    else
      var db := PutUser(w.db, u, w.db.users[u].(hashedPassword := HashPassword(next)));
      (RevokeAll(w.(db := db), u), Done(PasswordChanged))
  }

  function DeleteAccount(w: World, u: UserId, password: string, t: Timing): (World, Outcome) {
    if !Present(w.db, u) then (w, Failed(UserNotFound))
    else if !VerifyPassword(password, w.db.users[u].hashedPassword) then (w, Failed(CurrentPasswordMismatch))
    else (RevokeAll(w.(db := SoftDelete(w.db, u, t.stamp)), u), Done(AccountDeleted))
  }

  function ForceLogout(w: World, u: UserId, target: DeviceId, current: DeviceId): (World, Outcome) {
    if target == current then (w, Failed(CannotLogoutCurrentDevice))
    else if target !in ActiveDevices(w.db, u) then (w, Failed(DeviceNotFound))
    else
      (w.(redis := DeleteRefresh(w.redis, u, target), db := Deactivate(w.db, u, {target})),
       Done(DeviceLoggedOut))
  }

  function Describe(db: DbState, u: UserId, d: DeviceId, current: DeviceId): DeviceInfo
    requires (u, d) in db.devices
  {
    var row := db.devices[(u, d)];
    DeviceInfo(d, row.deviceName, row.osType, row.osVersion, row.appVersion,
               row.lastLoginAt, row.lastAccessAt, row.lastLoginIp, d == current)
  }

  function ListDevices(w: World, u: UserId, current: DeviceId): set<DeviceInfo> {
    set d | d in ActiveDevices(w.db, u) :: Describe(w.db, u, d, current)
  }

  function Serve(w: World, call: Call, p: AccessPayload, t: Timing): (World, Outcome)
    requires call.Protected()
  {
    match call
    case LogoutCall(_, _) => Logout(w, p, t)
    case LogoutAllCall(_, _) => LogoutAll(w, p, t)
    case ChangePasswordCall(_, _, current, next) => ChangePassword(w, p.sub, current, next)
    case DeleteAccountCall(_, _, password) => DeleteAccount(w, p.sub, password, t)
    case ForceLogoutCall(_, _, target) => ForceLogout(w, p.sub, target, p.deviceId)
    case ListDevicesCall(_, _) => (w, Done(DeviceList(ListDevices(w, p.sub, p.deviceId))))
  }

  ghost function Handle(cfg: Config, w: World, call: Call, t: Timing): (World, Outcome) {
    match call
    case SignupCall(newId, email, password, name) => Signup(w, newId, email, password, name)
    case LoginCall(_, _, _, _, _, _) => TryLogin(cfg, w, call, t)
    case RefreshCall(_, _, _, _, _) => TryRefresh(cfg, w, call, t)
    case _ =>
      var p := Authenticate(w, call.token, call.device, t);
      if p.Err? then (w, Failed(p.error)) else Serve(w, call, p.value, t)
  }

  // get_db: commit when the handler returned, roll back when it or the commit raised.
  ghost function Step(cfg: Config, w: World, call: Call, t: Timing, commits: bool): (World, Outcome) {
    var (w', o) := Handle(cfg, w, call, t);
    (if o.Done? && commits then w' else w'.(db := w.db), o)
  }
}
