/** The services, as objects over the shared session, token store and key, proved to run the protocol's handlers. */
module Services {
  import opened Base
  import opened Jwt
  import opened TypedRedis
  import opened Database
  import opened Keyspace
  import opened TokenStores
  import opened Protocol

  // The collaborators one request is given.
  class Context {
    const session: Session
    const store: TokenStore
    const jwt: JwtService

    constructor (session: Session, store: TokenStore, jwt: JwtService)
      ensures this.session == session && this.store == store && this.jwt == jwt
    {
      this.session := session;
      this.store := store;
      this.jwt := jwt;
    }

    ghost predicate Valid()
      reads store.redis
    {
      store.Valid()
    }

    ghost function Now(): World
      requires Valid()
      reads session, store.redis, jwt
    {
      World(store.State(), session.Rows(), jwt.signed)
    }

    // get_current_user
    method CurrentUser(token: Claims, device: DeviceId, t: Timing) returns (user: Result<AccessPayload, Error>)
      requires Valid()
      ensures user == Authenticate(Now(), token, device, t)
    {
      var payload := DecodeAccess(jwt.signed, token, t.decode);
      if payload.Err? {
        return payload;
      }
      if payload.value.deviceId != device {
        return Err(DeviceMismatch);
      }
      var revoked := store.IsTokenBlacklisted(payload.value.jti, t.read);
      if revoked {
        return Err(TokenRevoked);
      }
      user := payload;
    }
  }

  class AuthService {
    const ctx: Context
    const users: UserRepository
    const devices: UserDeviceRepository

    ghost predicate Valid()
      reads ctx.store.redis
    {
      ctx.Valid() && users.session == ctx.session && devices.session == ctx.session
    }

    constructor (ctx: Context)
      ensures this.ctx == ctx && users.session == ctx.session && devices.session == ctx.session
      ensures fresh(users) && fresh(devices)
    {
      this.ctx := ctx;
      this.users := new UserRepository(ctx.session);
      this.devices := new UserDeviceRepository(ctx.session);
    }

    method Signup(newId: UserId, email: string, password: string, name: string) returns (outcome: Outcome)
      requires Valid()
      modifies ctx.session
      ensures Valid()
      ensures (ctx.Now(), outcome) == Protocol.Signup(old(ctx.Now()), newId, email, password, name)
    {
      var taken := users.EmailExists(email);
      if taken.Err? {
        return Failed(taken.error);
      }
      if taken.value {
        return Failed(EmailAlreadyExists);
      }
      var ok := users.Create(newId, UserRow(email, HashPassword(password), name, Active, None));
      if !ok {
        return Failed(EmailAlreadyExists);
      }
      outcome := Done(SignedUp(newId, email, name));
    }

    method Login(email: string, password: string, device: DeviceId, client: ClientInfo, atId: Jti, rtId: Jti, t: Timing)
      returns (outcome: Outcome)
      requires Valid()
      modifies ctx.session, ctx.store.redis, ctx.jwt
      ensures Valid()
      ensures (ctx.Now(), outcome) ==
        TryLogin(ctx.jwt.cfg, old(ctx.Now()), LoginCall(email, password, device, client, atId, rtId), t)
    {
      var found := users.GetByEmail(email);
      match found {
        case ManyRows => return Failed(MultipleRowsFound);
        case NoRow => return Failed(InvalidCredentials);
        case OneRow(_) =>
      }
      FoundIsPresent(ctx.session.Rows(), email);
      var u := found.id;
      var user := ctx.session.users[u];
      if !VerifyPassword(password, user.hashedPassword) {
        return Failed(InvalidCredentials);
      }
      if user.status == Inactive {
        return Failed(AccountSuspended);
      }
      if user.status == Withdrawn {
        return Failed(AccountWithdrawn);
      }
      devices.Upsert(u, device, client, t.upsert);
      var accessToken, _ := ctx.jwt.CreateAccessToken(u, user.email, user.name, device, atId, t.mintAt);
      var refreshToken, rtExp := ctx.jwt.CreateRefreshToken(u, device, rtId, t.mintRt);
      ctx.store.StoreRefreshToken(u, device, rtId, LoginClient(client), rtExp, t.stamp, t.exec);
      outcome := Done(LoggedIn(accessToken, refreshToken, u, user.email, user.name));
    }

    method Refresh(token: Claims, device: DeviceId, client: ClientInfo, atId: Jti, rtId: Jti, t: Timing)
      returns (outcome: Outcome)
      requires Valid()
      modifies ctx.session, ctx.store.redis, ctx.jwt
      ensures Valid()
      ensures (ctx.Now(), outcome) ==
        TryRefresh(ctx.jwt.cfg, old(ctx.Now()), RefreshCall(token, device, client, atId, rtId), t)
    {
      var decoded := DecodeRefresh(ctx.jwt.signed, token, t.decode);
      if decoded.Err? {
        return Failed(decoded.error);
      }
      var payload := decoded.value;
      if payload.deviceId != device {
        return Failed(InvalidRefreshToken(DeviceMismatchAlert));
      }
      var stored := ctx.store.GetRefreshToken(payload.sub, device, t.read);
      if stored.None? {
        return Failed(InvalidRefreshToken(NoAlert));
      }
      if stored.value.tokenId != payload.jti {
        ctx.store.DeleteRefreshToken(payload.sub, device);
        return Failed(InvalidRefreshToken(ReuseAlert));
      }
      var user := users.GetById(payload.sub);
      if user.None? {
        return Failed(InvalidRefreshToken(NoAlert));
      }
      var accessToken, _ :=
        ctx.jwt.CreateAccessToken(payload.sub, user.value.email, user.value.name, device, atId, t.mintAt);
      var refreshToken, rtExp := ctx.jwt.CreateRefreshToken(payload.sub, device, rtId, t.mintRt);
      ctx.store.StoreRefreshToken(payload.sub, device, rtId, RefreshClient(client), rtExp, t.stamp, t.exec);
      outcome := Done(Refreshed(accessToken, refreshToken));
    }

    method Logout(user: AccessPayload, t: Timing) returns (outcome: Outcome)
      requires Valid()
      modifies ctx.session, ctx.store.redis
      ensures Valid()
      ensures (ctx.Now(), outcome) == Protocol.Logout(old(ctx.Now()), user, t)
    {
      hide Blacklist, DeleteRefresh, Deactivate, TotalSeconds, WellTyped, View;
      var ttl := TotalSeconds(user.exp - t.stamp);
      ctx.store.BlacklistToken(user.jti, user.sub, user.deviceId, "logout", ttl, t.revoke, t.exec);
      ctx.store.DeleteRefreshToken(user.sub, user.deviceId);
      var _ := devices.DeactivateDevice(user.sub, user.deviceId);
      outcome := Done(LoggedOut);
    }

    method LogoutAll(user: AccessPayload, t: Timing) returns (outcome: Outcome)
      requires Valid()
      modifies ctx.session, ctx.store.redis
      ensures Valid()
      ensures (ctx.Now(), outcome) == Protocol.LogoutAll(old(ctx.Now()), user, t)
    {
      hide Blacklist, DeleteAll, Deactivate, ActiveDevices, TotalSeconds, WellTyped, View;
      var ttl := TotalSeconds(user.exp - t.stamp);
      ctx.store.BlacklistToken(user.jti, user.sub, "all", "logout_all", ttl, t.revoke, t.exec);
      var count := ctx.store.DeleteAllRefreshTokens(user.sub);
      var _ := devices.DeactivateAllDevices(user.sub);
      outcome := Done(LoggedOutAll(count));
    }
  }

  class UserService {
    const ctx: Context
    const users: UserRepository
    const devices: UserDeviceRepository

    ghost predicate Valid()
      reads ctx.store.redis
    {
      ctx.Valid() && users.session == ctx.session && devices.session == ctx.session
    }

    constructor (ctx: Context)
      ensures this.ctx == ctx && users.session == ctx.session && devices.session == ctx.session
      ensures fresh(users) && fresh(devices)
    {
      this.ctx := ctx;
      this.users := new UserRepository(ctx.session);
      this.devices := new UserDeviceRepository(ctx.session);
    }

    method ChangePassword(u: UserId, current: string, next: string) returns (outcome: Outcome)
      requires Valid()
      modifies ctx.session, ctx.store.redis
      ensures Valid()
      ensures (ctx.Now(), outcome) == Protocol.ChangePassword(old(ctx.Now()), u, current, next)
    {
      hide DeleteAll, Deactivate, ActiveDevices, WellTyped, View;
      var user := users.GetById(u);
      if user.None? {
        return Failed(UserNotFound);
      }
      if !VerifyPassword(current, user.value.hashedPassword) {
        return Failed(CurrentPasswordMismatch);
      }
      if VerifyPassword(next, user.value.hashedPassword) {
        return Failed(SamePassword);
      }
      users.Update(u, user.value.(hashedPassword := HashPassword(next)));
      var _ := ctx.store.DeleteAllRefreshTokens(u);
      var _ := devices.DeactivateAllDevices(u);
      outcome := Done(PasswordChanged);
    }

    method DeleteAccount(u: UserId, password: string, t: Timing) returns (outcome: Outcome)
      requires Valid()
      modifies ctx.session, ctx.store.redis
      ensures Valid()
      ensures (ctx.Now(), outcome) == Protocol.DeleteAccount(old(ctx.Now()), u, password, t)
    {
      hide DeleteAll, Deactivate, ActiveDevices, WellTyped, View;
      var user := users.GetById(u);
      if user.None? {
        return Failed(UserNotFound);
      }
      if !VerifyPassword(password, user.value.hashedPassword) {
        return Failed(CurrentPasswordMismatch);
      }
      users.MarkDeleted(u, t.stamp);
      var _ := ctx.store.DeleteAllRefreshTokens(u);
      var _ := devices.DeactivateAllDevices(u);
      outcome := Done(AccountDeleted);
    }
  }

  class DeviceService {
    const ctx: Context
    const devices: UserDeviceRepository

    ghost predicate Valid()
      reads ctx.store.redis
    {
      ctx.Valid() && devices.session == ctx.session
    }

    constructor (ctx: Context)
      ensures this.ctx == ctx && devices.session == ctx.session
      ensures fresh(devices)
    {
      this.ctx := ctx;
      this.devices := new UserDeviceRepository(ctx.session);
    }

    method GetDevices(u: UserId, current: DeviceId) returns (outcome: Outcome)
      requires Valid()
      ensures outcome == Done(DeviceList(ListDevices(ctx.Now(), u, current)))
    {
      var ids := devices.GetActiveDevices(u);
      outcome := Done(DeviceList(set d | d in ids :: Describe(ctx.session.Rows(), u, d, current)));
    }

    method ForceLogoutDevice(u: UserId, target: DeviceId, current: DeviceId) returns (outcome: Outcome)
      requires Valid()
      modifies ctx.session, ctx.store.redis
      ensures Valid()
      ensures (ctx.Now(), outcome) == ForceLogout(old(ctx.Now()), u, target, current)
    {
      if target == current {
        return Failed(CannotLogoutCurrentDevice);
      }
      var device := devices.GetByUserAndDevice(u, target);
      assert target in ActiveDevices(ctx.session.Rows(), u) <==> device.Some? && device.value.isActive;
      if device.None? || !device.value.isActive {
        return Failed(DeviceNotFound);
      }
      ctx.store.DeleteRefreshToken(u, target);
      var _ := devices.DeactivateDevice(u, target);
      outcome := Done(DeviceLoggedOut);
    }
  }

  // The application: committed rows, the Redis server and the signing key.
  class App {
    var rows: DbState
    const store: TokenStore
    const jwt: JwtService

    ghost predicate Valid()
      reads store.redis
    {
      store.Valid()
    }

    ghost function Now(): World
      requires Valid()
      reads this, store.redis, jwt
    {
      World(store.State(), rows, jwt.signed)
    }

    constructor (cfg: Config)
      ensures Valid()
      ensures Now() == INIT && jwt.cfg == cfg
      ensures fresh(store.redis) && fresh(jwt)
    {
      var redis := new Redis();
      this.store := new TokenStore(redis);
      this.jwt := new JwtService(cfg);
      this.rows := NO_ROWS;
    }

    // One whole request. The handler works in a session of its own; get_db commits that session,
    // or rolls it back when the handler or the commit raises.
    method Request(call: Call, t: Timing, commits: bool) returns (outcome: Outcome)
      requires Valid()
      modifies this, store.redis, jwt
      ensures Valid()
      ensures (Now(), outcome) == Step(jwt.cfg, old(Now()), call, t, commits)
    {
      var session := new Session(rows);
      var ctx := new Context(session, store, jwt);
      outcome := Dispatch(ctx, call, t);
      if outcome.Done? && commits {
        rows := session.Rows();
      }
    }

    method Dispatch(ctx: Context, call: Call, t: Timing) returns (outcome: Outcome)
      requires ctx.Valid()
      modifies ctx.session, ctx.store.redis, ctx.jwt
      ensures ctx.Valid()
      ensures (ctx.Now(), outcome) == Handle(ctx.jwt.cfg, old(ctx.Now()), call, t)
    {
      hide Signup, TryLogin, TryRefresh, Protocol.Logout, Protocol.LogoutAll;
      hide Protocol.ChangePassword, Protocol.DeleteAccount, ForceLogout, Authenticate;
      var auth := new AuthService(ctx);
      match call {
        case SignupCall(newId, email, password, name) =>
          outcome := auth.Signup(newId, email, password, name);
        case LoginCall(email, password, device, client, atId, rtId) =>
          outcome := auth.Login(email, password, device, client, atId, rtId, t);
        case RefreshCall(token, device, client, atId, rtId) =>
          outcome := auth.Refresh(token, device, client, atId, rtId, t);
        case _ =>
          outcome := DispatchProtected(ctx, auth, call, t);
      }
    }

    method DispatchProtected(ctx: Context, auth: AuthService, call: Call, t: Timing) returns (outcome: Outcome)
      requires call.Protected()
      requires ctx.Valid() && auth.Valid() && auth.ctx == ctx
      modifies ctx.session, ctx.store.redis, ctx.jwt
      ensures ctx.Valid()
      ensures (ctx.Now(), outcome) == Handle(ctx.jwt.cfg, old(ctx.Now()), call, t)
    {
      hide Protocol.Logout, Protocol.LogoutAll;
      hide Protocol.ChangePassword, Protocol.DeleteAccount, ForceLogout, Authenticate;
      var user := ctx.CurrentUser(call.token, call.device, t);
      if user.Err? {
        return Failed(user.error);
      }
      var p := user.value;
      match call {
        case LogoutCall(_, _) =>
          outcome := auth.Logout(p, t);
        case LogoutAllCall(_, _) =>
          outcome := auth.LogoutAll(p, t);
        case ChangePasswordCall(_, _, current, next) =>
          var service := new UserService(ctx);
          outcome := service.ChangePassword(p.sub, current, next);
        case DeleteAccountCall(_, _, password) =>
          var service := new UserService(ctx);
          outcome := service.DeleteAccount(p.sub, password, t);
        case ForceLogoutCall(_, _, target) =>
          var service := new DeviceService(ctx);
          outcome := service.ForceLogoutDevice(p.sub, target, p.deviceId);
        case ListDevicesCall(_, _) =>
          var service := new DeviceService(ctx);
          outcome := service.GetDevices(p.sub, p.deviceId);
      }
    }
  }

  lemma FoundIsPresent(db: DbState, email: string)
    ensures
      var found := FindByEmail(db, email);
      found.OneRow? ==> Present(db, found.id) && db.users[found.id].email == email
  {
  }
}
