/**
 The log of a run, and what one logged request did to each store, read off its log entry alone:
 the call, its clock readings, whether its commit succeeded, and how its handler ended.
 */
module Log {
  import opened Base
  import opened Jwt
  import opened TypedRedis
  import opened Database
  import opened Protocol

  datatype Entry = Entry(call: Call, t: Timing, commits: bool, outcome: Outcome)
  {
    predicate Committed() {
      outcome.Done? && commits
    }
  }

  // ---- Tokens ----

  function MintedAccess(e: Entry): Option<Claims> {
    match e.outcome
    case Done(LoggedIn(at, _, _, _, _)) => Some(at)
    case Done(Refreshed(at, _)) => Some(at)
    case _ => None
  }

  function MintedRefresh(e: Entry): Option<Claims> {
    match e.outcome
    case Done(LoggedIn(_, rt, _, _, _)) => Some(rt)
    case Done(Refreshed(_, rt)) => Some(rt)
    case _ => None
  }

  function Minted(e: Entry): set<Claims> {
    (if MintedAccess(e).Some? then {MintedAccess(e).value} else {}) +
    (if MintedRefresh(e).Some? then {MintedRefresh(e).value} else {})
  }

  // ---- Refresh-token records ----

  // The store writes a record iff at least one whole second of the lifetime is left when it looks.
  predicate Recorded(cfg: Config, t: Timing) {
    TotalSeconds(RefreshExpiry(cfg, t.mintRt) - t.stamp) > 0
  }

  datatype Effect =
    | Nothing
    | Put(u: UserId, d: DeviceId, entry: Timed<RtRecord>)
    | Remove(u: UserId, d: DeviceId)
    | RemoveAll(u: UserId)

  function EffectOf(cfg: Config, e: Entry): Effect {
    match e.call
    case LoginCall(_, _, _, _, _, _) => PutEffect(cfg, e)
    case RefreshCall(token, device, _, _, _) =>
      if e.outcome == Failed(InvalidRefreshToken(ReuseAlert)) then Remove(token.sub, device)
      else PutEffect(cfg, e)
    case LogoutCall(token, _) => if e.outcome.Done? then Remove(token.sub, token.deviceId) else Nothing
    case ForceLogoutCall(token, _, target) => if e.outcome.Done? then Remove(token.sub, target) else Nothing
    case LogoutAllCall(token, _) => if e.outcome.Done? then RemoveAll(token.sub) else Nothing
    case ChangePasswordCall(token, _, _, _) => if e.outcome.Done? then RemoveAll(token.sub) else Nothing
    case DeleteAccountCall(token, _, _) => if e.outcome.Done? then RemoveAll(token.sub) else Nothing
    case _ => Nothing
  }

  function PutEffect(cfg: Config, e: Entry): Effect
    requires e.call.LoginCall? || e.call.RefreshCall?
  {
    if MintedRefresh(e).Some? && Recorded(cfg, e.t) then
      var rt := MintedRefresh(e).value;
      Put(rt.sub, rt.deviceId,
          RtEntry(rt.sub, rt.deviceId, rt.jti, ClientOf(e.call), RefreshExpiry(cfg, e.t.mintRt), e.t.stamp, e.t.exec))
    else Nothing
  }

  function Apply(effect: Effect, r: RedisState): RedisState {
    match effect
    case Nothing => r
    case Put(u, d, entry) => AddIndex(SetRt(r, u, d, entry), u, d)
    case Remove(u, d) => DeleteRefresh(r, u, d)
    case RemoveAll(u) => DeleteAll(r, u)
  }

  // ---- The blacklist ----

  // The seconds for which a logout blacklists its access token.
  function LogoutTtl(e: Entry): int
    requires e.call.LogoutCall? || e.call.LogoutAllCall?
  {
    TotalSeconds(Instant(e.call.token.exp) - e.t.stamp)
  }

  function ApplyBlacklist(e: Entry, r: RedisState): RedisState {
    if e.outcome.Failed? then r
    else match e.call
      case LogoutCall(token, _) =>
        Blacklist(r, token.jti, BlRecord(token.sub, token.deviceId, "logout", e.t.revoke / SECOND),
                  LogoutTtl(e), e.t.exec)
      case LogoutAllCall(token, _) =>
        Blacklist(r, token.jti, BlRecord(token.sub, "all", "logout_all", e.t.revoke / SECOND), LogoutTtl(e), e.t.exec)
      case _ => r
  }

  // ---- Rows ----

  function ApplyUsers(e: Entry, users: map<UserId, UserRow>): map<UserId, UserRow> {
    match e.call
    case SignupCall(newId, email, password, name) =>
      users[newId := UserRow(email, HashPassword(password), name, Active, None)]
    case ChangePasswordCall(token, _, _, next) =>
      if token.sub !in users then users
      else users[token.sub := users[token.sub].(hashedPassword := HashPassword(next))]
    case DeleteAccountCall(token, _, _) =>
      if token.sub !in users then users
      else users[token.sub := users[token.sub].(deletedAt := Some(e.t.stamp), status := Withdrawn)]
    case _ => users
  }

  function ApplyDevices(e: Entry, db: DbState): map<(UserId, DeviceId), DeviceRow> {
    match e.call
    case LoginCall(_, _, device, client, _, _) =>
      if e.outcome.Done? && e.outcome.response.LoggedIn?
      then UpsertDevice(db, e.outcome.response.userId, device, client, e.t.upsert).devices
      else db.devices
    case LogoutCall(token, _) => Deactivate(db, token.sub, {token.deviceId}).devices
    case ForceLogoutCall(token, _, target) => Deactivate(db, token.sub, {target}).devices
    case LogoutAllCall(token, _) => Deactivate(db, token.sub, ActiveDevices(db, token.sub)).devices
    case ChangePasswordCall(token, _, _, _) => Deactivate(db, token.sub, ActiveDevices(db, token.sub)).devices
    case DeleteAccountCall(token, _, _) => Deactivate(db, token.sub, ActiveDevices(db, token.sub)).devices
    case _ => db.devices
  }

  function ApplyDb(e: Entry, db: DbState): DbState {
    if e.Committed() then DbState(ApplyUsers(e, db.users), ApplyDevices(e, db)) else db
  }

  function ApplyEntry(cfg: Config, e: Entry, w: World): World {
    World(Apply(EffectOf(cfg, e), ApplyBlacklist(e, w.redis)), ApplyDb(e, w.db), w.signed + Minted(e))
  }

  // ---- The log entry tells the whole effect of its request ----

  lemma DecodedIsToken(w: World, token: Claims, device: DeviceId, t: Timing)
    ensures
      var p := Authenticate(w, token, device, t);
      p.Ok? ==>
        && p.value.sub == token.sub && p.value.deviceId == token.deviceId == device
        && p.value.jti == token.jti && p.value.exp == Instant(token.exp) && token in w.signed
  {
  }

  lemma SignupEffect(cfg: Config, w: World, call: Call, t: Timing, commits: bool)
    requires call.SignupCall?
    ensures
      var (w', o) := Step(cfg, w, call, t, commits);
      w' == ApplyEntry(cfg, Entry(call, t, commits, o), w)
  {
  }

  lemma LoginEffect(cfg: Config, w: World, call: Call, t: Timing, commits: bool)
    requires call.LoginCall?
    ensures
      var (w', o) := Step(cfg, w, call, t, commits);
      w' == ApplyEntry(cfg, Entry(call, t, commits, o), w)
  {
    hide Upserted, AddIndex, SetRt, TotalSeconds;
  }

  lemma RefreshEffect(cfg: Config, w: World, call: Call, t: Timing, commits: bool)
    requires call.RefreshCall?
    ensures
      var (w', o) := Step(cfg, w, call, t, commits);
      w' == ApplyEntry(cfg, Entry(call, t, commits, o), w)
  {
    hide DeleteRefresh, AddIndex, SetRt, TotalSeconds;
  }

  // The payload get_current_user decoded from a token.
  predicate PayloadOf(p: AccessPayload, token: Claims) {
    p.sub == token.sub && p.deviceId == token.deviceId && p.jti == token.jti && p.exp == Instant(token.exp)
  }

  lemma LogoutsEffect(cfg: Config, w: World, call: Call, p: AccessPayload, t: Timing, commits: bool)
    requires call.LogoutCall? || call.LogoutAllCall?
    requires PayloadOf(p, call.token)
    ensures
      var (w', o) := Serve(w, call, p, t);
      (if o.Done? && commits then w' else w'.(db := w.db)) == ApplyEntry(cfg, Entry(call, t, commits, o), w)
  {
    hide DeleteRefresh, DeleteAll, Blacklist, TotalSeconds, SwitchedOff, ActiveDevices;
  }

  lemma AccountEffect(cfg: Config, w: World, call: Call, p: AccessPayload, t: Timing, commits: bool)
    requires call.ChangePasswordCall? || call.DeleteAccountCall?
    requires PayloadOf(p, call.token)
    ensures
      var (w', o) := Serve(w, call, p, t);
      (if o.Done? && commits then w' else w'.(db := w.db)) == ApplyEntry(cfg, Entry(call, t, commits, o), w)
  {
    hide DeleteAll, SwitchedOff;
  }

  lemma DevicesEffect(cfg: Config, w: World, call: Call, p: AccessPayload, t: Timing, commits: bool)
    requires call.ForceLogoutCall? || call.ListDevicesCall?
    requires PayloadOf(p, call.token)
    ensures
      var (w', o) := Serve(w, call, p, t);
      (if o.Done? && commits then w' else w'.(db := w.db)) == ApplyEntry(cfg, Entry(call, t, commits, o), w)
  {
    hide DeleteRefresh, SwitchedOff, ActiveDevices, ListDevices;
  }

  lemma ProtectedEffect(cfg: Config, w: World, call: Call, t: Timing, commits: bool)
    requires call.Protected()
    ensures
      var (w', o) := Step(cfg, w, call, t, commits);
      w' == ApplyEntry(cfg, Entry(call, t, commits, o), w)
  {
    var p := Authenticate(w, call.token, call.device, t);
    if p.Err? {
      hide Authenticate;
    } else {
      DecodedIsToken(w, call.token, call.device, t);
      hide Serve, ApplyEntry, Authenticate;
      if call.LogoutCall? || call.LogoutAllCall? {
        LogoutsEffect(cfg, w, call, p.value, t, commits);
      } else if call.ChangePasswordCall? || call.DeleteAccountCall? {
        AccountEffect(cfg, w, call, p.value, t, commits);
      } else {
        DevicesEffect(cfg, w, call, p.value, t, commits);
      }
    }
  }

  lemma StepEffect(cfg: Config, w: World, call: Call, t: Timing, commits: bool)
    ensures
      var (w', o) := Step(cfg, w, call, t, commits);
      w' == ApplyEntry(cfg, Entry(call, t, commits, o), w)
  {
    hide Step, ApplyEntry;
    match call
    case SignupCall(_, _, _, _) => SignupEffect(cfg, w, call, t, commits);
    case LoginCall(_, _, _, _, _, _) => LoginEffect(cfg, w, call, t, commits);
    case RefreshCall(_, _, _, _, _) => RefreshEffect(cfg, w, call, t, commits);
    case _ => ProtectedEffect(cfg, w, call, t, commits);
  }
}
