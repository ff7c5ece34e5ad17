/** How the two stores agree on who is signed in where, with and without failing commits. */
module Sessions {
  import opened Base
  import opened Jwt
  import opened TypedRedis
  import opened Database
  import opened Protocol
  import opened Log
  import opened Runs
  import opened History
  import opened AccessTokens

  // Every indexed device has an active row.
  predicate IndexWithinActive(w: World) {
    forall u | u in w.redis.index :: w.redis.index[u] <= ActiveDevices(w.db, u)
  }

  // Live records, device set, active rows: each inside the next, and no record of a withdrawn user.
  predicate Sandwich(w: World) {
    LiveWithinIndex(w) && IndexWithinActive(w)
  }

  // Devices of u that hold an unexpired record.
  function LiveDevices(r: RedisState, u: UserId, now: nat): set<DeviceId> {
    set p | p in r.rt && p.0 == u && now < r.rt[p].expiry :: p.1
  }

  // ---- What one entry does to index and rows ----

  lemma IndexAfter(effect: Effect, r: RedisState, v: UserId)
    ensures Indexed(Apply(effect, r), v) ==
      if effect.Put? && effect.u == v then Indexed(r, v) + {effect.d}
      else if effect.Remove? && effect.u == v then Indexed(r, v) - {effect.d}
      else if effect == RemoveAll(v) then {}
      else Indexed(r, v)
  {
  }

  lemma ActiveAfterSwitch(db: DbState, u: UserId, ids: set<DeviceId>, v: UserId)
    ensures ActiveDevices(DbState(db.users, SwitchedOff(db.devices, u, ids)), v) ==
      if u == v then ActiveDevices(db, v) - ids else ActiveDevices(db, v)
  {
    var after := DbState(db.users, SwitchedOff(db.devices, u, ids));
    forall d ensures d in ActiveDevices(after, v) <==>
        (v, d) in db.devices && db.devices[(v, d)].isActive && !(u == v && d in ids) {
      assert d in ActiveDevices(after, v) <==> (v, d) in after.devices && after.devices[(v, d)].isActive;
    }
    forall d ensures d in ActiveDevices(db, v) <==> (v, d) in db.devices && db.devices[(v, d)].isActive {
    }
  }

  lemma ActiveAfterUpsert(db: DbState, u: UserId, d: DeviceId, client: ClientInfo, now: nat, v: UserId)
    ensures ActiveDevices(UpsertDevice(db, u, d, client, now), v) ==
      if u == v then ActiveDevices(db, v) + {d} else ActiveDevices(db, v)
  {
    var after := UpsertDevice(db, u, d, client, now);
    forall e ensures e in ActiveDevices(after, v) <==> (v, e) in after.devices && after.devices[(v, e)].isActive {
    }
    forall e ensures e in ActiveDevices(db, v) <==> (v, e) in db.devices && db.devices[(v, e)].isActive {
    }
  }

  function SwitchedBy(cfg: Config, e: Entry, active: set<DeviceId>, v: UserId): set<DeviceId> {
    if e.call.LoginCall? then
      if e.outcome.Done? && e.outcome.response.LoggedIn? && e.outcome.response.userId == v
      then active + {e.call.device} else active
    else match EffectOf(cfg, e)
      case Remove(u, d) => if u == v then active - {d} else active
      case RemoveAll(u) => if u == v then {} else active
      case _ => active
  }

  // A kill that commits switches off in the rows what it removes from Redis.
  lemma KillSwitchesOff(cfg: Config, e: Entry, db: DbState)
    requires e.Committed() && !e.call.LoginCall?
    ensures ApplyDevices(e, db) == match EffectOf(cfg, e)
      case Remove(u, d) => SwitchedOff(db.devices, u, {d})
      case RemoveAll(u) => SwitchedOff(db.devices, u, ActiveDevices(db, u))
      case _ => db.devices
  {
    hide SwitchedOff, ActiveDevices, PutEffect;
    if e.call.RefreshCall? {
      assert !EffectOf(cfg, e).Remove? && !EffectOf(cfg, e).RemoveAll? by { PutIsNoKill(cfg, e); }
    }
  }

  lemma PutIsNoKill(cfg: Config, e: Entry)
    requires e.call.RefreshCall?
    ensures PutEffect(cfg, e).Put? || PutEffect(cfg, e).Nothing?
  {
  }

  // The active rows after an entry, read off the same effect that tells what became of the records:
  // a login switches its device on, a kill that commits switches off what it kills.
  lemma ActiveAfter(cfg: Config, w: World, e: Entry, v: UserId)
    ensures
      var before, after := ActiveDevices(w.db, v), ActiveDevices(ApplyDb(e, w.db), v);
      && (!e.Committed() ==> after == before)
      && (e.Committed() ==> after == SwitchedBy(cfg, e, before, v))
  {
    if e.Committed() {
      hide ActiveDevices, ApplyUsers, EffectOf;
      UsersIrrelevant(w.db, ApplyUsers(e, w.db.users), v);
      if e.call.LoginCall? {
        if e.outcome.response.LoggedIn? {
          ActiveAfterUpsert(w.db, e.outcome.response.userId, e.call.device, e.call.client, e.t.upsert, v);
        }
      } else {
        KillSwitchesOff(cfg, e, w.db);
        hide ApplyDevices, SwitchedOff;
        match EffectOf(cfg, e)
        case Remove(u, d) => ActiveAfterSwitch(w.db, u, {d}, v);
        case RemoveAll(u) => ActiveAfterSwitch(w.db, u, ActiveDevices(w.db, u), v);
        case _ =>
      }
    }
  }

  // Active devices do not depend on the user rows.
  lemma UsersIrrelevant(db: DbState, users: map<UserId, UserRow>, v: UserId)
    ensures forall devices :: ActiveDevices(DbState(users, devices), v) == ActiveDevices(DbState(db.users, devices), v)
  {
  }

  // ---- The sandwich ----

  // The one way a request leaves an indexed device without an active row: a login that stored its record
  // on a device that was not active, and then failed to commit.
  predicate OrphanLogin(cfg: Config, w: World, e: Entry) {
    && e.call.LoginCall? && e.outcome.Done? && e.outcome.response.LoggedIn? && !e.commits
    && Recorded(cfg, e.t) && e.call.device !in ActiveDevices(w.db, e.outcome.response.userId)
  }

  // What a recorded mint puts in the index: the login's own device, or one that was there already.
  lemma PutDevice(cfg: Config, w: World, e: Entry)
    requires Inv(w) && EffectOf(cfg, e).Put?
    requires Step(cfg, w, e.call, e.t, e.commits).1 == e.outcome
    ensures e.call.LoginCall? ==>
      && e.outcome.Done? && e.outcome.response.LoggedIn? && Recorded(cfg, e.t)
      && EffectOf(cfg, e).u == e.outcome.response.userId && EffectOf(cfg, e).d == e.call.device
    ensures !e.call.LoginCall? ==> EffectOf(cfg, e).d in Indexed(w.redis, EffectOf(cfg, e).u)
  {
    if e.call.LoginCall? {
      LoginMints(cfg, w, e.call, e.t);
      hide Step, Inv;
    } else {
      RefreshMints(cfg, w, e.call, e.t);
      RefreshHeldRecord(cfg, w, e.call, e.t);
      hide Step, Inv;
    }
  }

  lemma RefreshHeldRecord(cfg: Config, w: World, call: Call, t: Timing)
    requires call.RefreshCall? && TryRefresh(cfg, w, call, t).1.Done?
    ensures (call.token.sub, call.device) in w.redis.rt
  {
    hide StoreRefresh;
  }

  // The same for one user's devices.
  lemma SandwichFor(cfg: Config, w: World, e: Entry, v: UserId)
    requires Inv(w) && Indexed(w.redis, v) <= ActiveDevices(w.db, v)
    requires Step(cfg, w, e.call, e.t, e.commits).1 == e.outcome
    ensures
      var w' := ApplyEntry(cfg, e, w);
      Indexed(w'.redis, v) <= ActiveDevices(w'.db, v) <==>
        !(OrphanLogin(cfg, w, e) && e.outcome.response.userId == v)
  {
    var effect, r := EffectOf(cfg, e), ApplyBlacklist(e, w.redis);
    if effect.Put? {
      PutDevice(cfg, w, e);
    }
    if e.call.LoginCall? && e.outcome.Done? {
      LoginIsMint(cfg, w, e);
    }
    IndexAfter(effect, r, v);
    assert Indexed(r, v) == Indexed(w.redis, v);
    ActiveAfter(cfg, w, e, v);
    KillsAreDone(cfg, e);
    hide Step, Inv, ActiveDevices, EffectOf, Apply, ApplyDb, TotalSeconds, Recorded;
  }

  lemma SandwichStep(cfg: Config, w: World, e: Entry)
    requires Inv(w) && IndexWithinActive(w)
    requires Step(cfg, w, e.call, e.t, e.commits).1 == e.outcome
    ensures IndexWithinActive(ApplyEntry(cfg, e, w)) <==> !OrphanLogin(cfg, w, e)
  {
    var w' := ApplyEntry(cfg, e, w);
    forall v
      ensures Indexed(w'.redis, v) <= ActiveDevices(w'.db, v) <==>
        !(OrphanLogin(cfg, w, e) && e.outcome.response.userId == v)
    {
      assert Indexed(w.redis, v) <= ActiveDevices(w.db, v);
      SandwichFor(cfg, w, e, v);
    }
    if OrphanLogin(cfg, w, e) {
      var v := e.outcome.response.userId;
      assert !(Indexed(w'.redis, v) <= ActiveDevices(w'.db, v));
    }
    hide Step, Inv, ActiveDevices, ApplyEntry, OrphanLogin, TotalSeconds;
  }

  lemma LoginIsMint(cfg: Config, w: World, e: Entry)
    requires Inv(w) && e.call.LoginCall? && e.outcome.Done?
    requires Step(cfg, w, e.call, e.t, e.commits).1 == e.outcome
    ensures e.outcome.response.LoggedIn? && (EffectOf(cfg, e).Put? <==> Recorded(cfg, e.t))
  {
    LoginMints(cfg, w, e.call, e.t);
    hide Step, Inv, TotalSeconds;
  }

  // Only detected reuse kills without its handler finishing.
  lemma KillsAreDone(cfg: Config, e: Entry)
    ensures EffectOf(cfg, e).Remove? || EffectOf(cfg, e).RemoveAll? ==>
      (e.outcome.Done? && e.call.Protected()) || ReuseDetected(e)
  {
  }

  lemma {:induction false} SandwichAt(cfg: Config, run: Run, n: nat)
    requires IsRun(cfg, run) && n < |run.worlds| && CommitsBefore(run, n)
    ensures Sandwich(run.worlds[n])
  {
    InvAt(cfg, run, n);
    if n > 0 {
      SandwichAt(cfg, run, n - 1);
      StepAtEffect(cfg, run, n - 1);
      SandwichStep(cfg, run.worlds[n - 1], run.entries[n - 1]);
    }
    hide IsRun, Step, ApplyEntry, Fresh;
  }

  // ---- Failing handlers and failing commits ----

  // A request that raises, or whose commit raises, leaves every row as it was and keeps the Redis work and the
  // signatures of its handler; and a raising handler has touched Redis only if it detected reuse.
  lemma FailureKeepsRows(cfg: Config, w: World, e: Entry)
    requires Step(cfg, w, e.call, e.t, e.commits).1 == e.outcome
    requires !e.Committed()
    ensures
      var w' := Step(cfg, w, e.call, e.t, e.commits).0;
      && w'.db == w.db
      && w'.redis == Handle(cfg, w, e.call, e.t).0.redis && w'.signed == Handle(cfg, w, e.call, e.t).0.signed
      && (e.outcome.Failed? && !ReuseDetected(e) ==> w' == w)
  {
    StepEffect(cfg, w, e.call, e.t, e.commits);
    hide Handle, DeleteRefresh, DeleteAll, AddIndex, SetRt, TotalSeconds;
  }

  // Even if commits fail, the exit of refresh for a missing user is never taken: a matching live record
  // belongs to a present user, so refresh succeeds on it.
  lemma NoOrphanRefresh(cfg: Config, run: Run, n: nat)
    requires IsRun(cfg, run) && n < |run.entries| && run.entries[n].call.RefreshCall?
    ensures
      var e, w := run.entries[n], run.worlds[n];
      var p := DecodeRefresh(w.signed, e.call.token, e.t.decode);
      e.outcome == Failed(InvalidRefreshToken(NoAlert)) <==>
        || p == Err(InvalidRefreshToken(NoAlert))
        || (p.Ok? && p.value.deviceId == e.call.device && GetRt(w.redis, p.value.sub, e.call.device, e.t.read).None?)
  {
    RefreshStep(cfg, run, n);
    InvAt(cfg, run, n);
    hide IsRun, StoreRefresh, DeleteRefresh;
  }

  // ---- Mass deletion ----

  lemma SubsetSize<T>(a: set<T>, b: set<T>)
    requires a <= b
    ensures |a| <= |b|
  {
    assert b == a + (b - a);
  }

  predicate Cleared(w: World, u: UserId) {
    (forall p | p in w.redis.rt :: p.0 != u) && u !in w.redis.index && ActiveDevices(w.db, u) == {}
  }

  // Nothing of any user other than u changed, nor any blacklist entry other than jti's.
  ghost predicate OthersKept(w: World, w': World, u: UserId, jti: Jti) {
    && (forall p: (UserId, DeviceId) | p.0 != u ::
          (p in w.redis.rt <==> p in w'.redis.rt) && (p in w.redis.rt ==> w'.redis.rt[p] == w.redis.rt[p]))
    && (forall v | v != u :: Indexed(w'.redis, v) == Indexed(w.redis, v))
    && (forall p: (UserId, DeviceId) | p.0 != u ::
          (p in w.db.devices <==> p in w'.db.devices) && (p in w.db.devices ==> w'.db.devices[p] == w.db.devices[p]))
    && w'.db.users == w.db.users && w'.signed == w.signed
    && Without(w'.redis.blacklist, {jti}) == Without(w.redis.blacklist, {jti})
  }

  // logout_all leaves u with no record, no device set and no active row, changes nothing of any other user except
  // the blacklist entry of the caller's token, and returns a count between u's live records and u's active rows.
  lemma LogoutAllClears(cfg: Config, run: Run, n: nat, now: nat)
    requires IsRun(cfg, run) && n < |run.entries| && CommitsBefore(run, n + 1)
    requires run.entries[n].call.LogoutAllCall? && run.entries[n].outcome.Done?
    ensures
      var e, w, w' := run.entries[n], run.worlds[n], run.worlds[n + 1];
      var u := e.call.token.sub;
      && Cleared(w', u) && OthersKept(w, w', u, e.call.token.jti)
      && e.outcome.response.LoggedOutAll?
      && |LiveDevices(w.redis, u, now)| <= e.outcome.response.count <= |ActiveDevices(w.db, u)|
  {
    var e, w := run.entries[n], run.worlds[n];
    var u := e.call.token.sub;
    StepAtEffect(cfg, run, n);
    SandwichAt(cfg, run, n);
    LogoutAllCount(cfg, w, e);
    SubsetSize(LiveDevices(w.redis, u, now), Indexed(w.redis, u));
    SubsetSize(Indexed(w.redis, u), ActiveDevices(w.db, u));
    LogoutAllEffect(cfg, w, e);
    hide IsRun, Step, Inv, Fresh, ActiveDevices, LiveDevices, Sandwich, Cleared, OthersKept, ApplyEntry;
  }

  lemma LogoutAllEffect(cfg: Config, w: World, e: Entry)
    requires LiveWithinIndex(w)
    requires e.call.LogoutAllCall? && e.Committed() && e.outcome.response.LoggedOutAll?
    ensures Cleared(ApplyEntry(cfg, e, w), e.call.token.sub)
    ensures OthersKept(w, ApplyEntry(cfg, e, w), e.call.token.sub, e.call.token.jti)
  {
    var u, w' := e.call.token.sub, ApplyEntry(cfg, e, w);
    var r := ApplyBlacklist(e, w.redis);
    BlacklistTouchesOne(e, w.redis);
    RecordsOfOthers(r, u);
    hide TotalSeconds, ActiveDevices, DropRts, DeleteAll, ApplyBlacklist, Without;
    assert w'.redis == DeleteAll(r, u);
    assert Minted(e) == {};
    ActiveAfterSwitch(w.db, u, ActiveDevices(w.db, u), u);
  }

  lemma BlacklistTouchesOne(e: Entry, r: RedisState)
    requires e.call.LogoutAllCall?
    ensures ApplyBlacklist(e, r).rt == r.rt && ApplyBlacklist(e, r).index == r.index
    ensures Without(ApplyBlacklist(e, r).blacklist, {e.call.token.jti}) == Without(r.blacklist, {e.call.token.jti})
  {
  }

  lemma RecordsOfOthers(r: RedisState, u: UserId)
    requires forall p | p in r.rt :: p.1 in Indexed(r, p.0)
    ensures
      var after := DeleteAll(r, u);
      && (forall p | p in after.rt :: p.0 != u) && u !in after.index
      && (forall p: (UserId, DeviceId) | p.0 != u ::
            (p in r.rt <==> p in after.rt) && (p in r.rt ==> after.rt[p] == r.rt[p]))
      && (forall v | v != u :: Indexed(after, v) == Indexed(r, v))
      && after.blacklist == r.blacklist
  {
  }

  lemma LogoutAllCount(cfg: Config, w: World, e: Entry)
    requires e.call.LogoutAllCall? && e.outcome.Done?
    requires Step(cfg, w, e.call, e.t, e.commits).1 == e.outcome
    ensures e.outcome == Done(LoggedOutAll(|Indexed(w.redis, e.call.token.sub)|))
  {
    DecodedIsToken(w, e.call.token, e.call.device, e.t);
    hide Authenticate, DeleteAll, TotalSeconds, SwitchedOff, ActiveDevices;
  }

  // ---- What users see ----

  // Without commit failures, every device whose refresh token still works is listed to its user, and can be
  // forced out from any other device: the request succeeds and ends the session.
  lemma LiveSessionsAreVisible(cfg: Config, run: Run, n: nat, u: UserId, d: DeviceId)
    requires IsRun(cfg, run) && n < |run.entries| && CommitsBefore(run, n) && (u, d) in run.worlds[n].redis.rt
    requires Authenticated(run.entries[n]) && run.entries[n].call.token.sub == u
    ensures run.entries[n].call.ListDevicesCall? ==>
      run.entries[n].outcome.Done? && run.entries[n].outcome.response.DeviceList?
      && exists info :: info in run.entries[n].outcome.response.devices && info.deviceId == d
    ensures
      var call := run.entries[n].call;
      call.ForceLogoutCall? && call.target == d && call.device != d ==>
      run.entries[n].outcome == Done(DeviceLoggedOut) && (u, d) !in run.worlds[n + 1].redis.rt
  {
    var e, w := run.entries[n], run.worlds[n];
    SandwichAt(cfg, run, n);
    StepAtEffect(cfg, run, n);
    AuthenticatedStep(cfg, w, e);
    DecodedIsToken(w, e.call.token, e.call.device, e.t);
    assert d in ActiveDevices(w.db, u);
    if e.call.ListDevicesCall? {
      hide IsRun, Inv, Fresh, ApplyEntry, Authenticate;
      assert Describe(w.db, u, d, e.call.device) in ListDevices(w, u, e.call.device);
    } else if e.call.ForceLogoutCall? && e.call.target == d && e.call.device != d {
      ForceLogoutWorks(cfg, w, e);
      RecordStep(cfg, run, n, u, d);
    }
  }

  lemma ForceLogoutWorks(cfg: Config, w: World, e: Entry)
    requires e.call.ForceLogoutCall? && Authenticate(w, e.call.token, e.call.device, e.t).Ok?
    requires Step(cfg, w, e.call, e.t, e.commits).1 == e.outcome
    ensures e.call.target != e.call.device && e.call.target in ActiveDevices(w.db, e.call.token.sub) <==>
            e.outcome == Done(DeviceLoggedOut)
    ensures e.outcome.Done? ==> Kills(cfg, e, e.call.token.sub, e.call.target)
  {
    DecodedIsToken(w, e.call.token, e.call.device, e.t);
    hide Authenticate, DeleteRefresh, SwitchedOff, ActiveDevices;
  }

  // ---- Device rows follow the log ----

  // A committed login switched the row of the pair on.
  predicate SwitchesOn(e: Entry, u: UserId, d: DeviceId) {
    && e.call.LoginCall? && e.call.device == d && e.Committed()
    && e.outcome.response.LoggedIn? && e.outcome.response.userId == u
  }

  // A committed logout, forced logout or mass revocation switched it off.
  predicate SwitchesOff(cfg: Config, e: Entry, u: UserId, d: DeviceId) {
    e.Committed() && Kills(cfg, e, u, d)
  }

  ghost predicate IsOn(cfg: Config, entries: seq<Entry>, n: nat, i: int, u: UserId, d: DeviceId)
    requires n <= |entries|
  {
    && 0 <= i < n && SwitchesOn(entries[i], u, d)
    && forall j | i < j < n :: !SwitchesOff(cfg, entries[j], u, d)
  }

  lemma ActiveStep(cfg: Config, run: Run, n: nat, u: UserId, d: DeviceId)
    requires IsRun(cfg, run) && n < |run.entries|
    ensures
      var e := run.entries[n];
      d in ActiveDevices(run.worlds[n + 1].db, u) <==>
        SwitchesOn(e, u, d) || (d in ActiveDevices(run.worlds[n].db, u) && !SwitchesOff(cfg, e, u, d))
    ensures SwitchesOn(run.entries[n], u, d) ==> !SwitchesOff(cfg, run.entries[n], u, d)
  {
    var e := run.entries[n];
    StepAtEffect(cfg, run, n);
    ActiveAfter(cfg, run.worlds[n], e, u);
    LoginNeverKills(cfg, e);
    hide IsRun, Step, Inv, Fresh, ActiveDevices, EffectOf, Apply, ApplyDb, ApplyBlacklist;
  }

  lemma LoginNeverKills(cfg: Config, e: Entry)
    ensures e.call.LoginCall? ==> EffectOf(cfg, e).Put? || EffectOf(cfg, e).Nothing?
  {
  }

  lemma {:induction false} ActiveFollowsLog(cfg: Config, run: Run, n: nat, u: UserId, d: DeviceId)
    requires IsRun(cfg, run) && n < |run.worlds|
    ensures d in ActiveDevices(run.worlds[n].db, u) <==> exists i :: IsOn(cfg, run.entries, n, i, u, d)
  {
    if n > 0 {
      var m := n - 1;
      ActiveFollowsLog(cfg, run, m, u, d);
      ActiveStep(cfg, run, m, u, d);
      hide IsRun, SwitchesOn, SwitchesOff, ActiveDevices;
      if SwitchesOn(run.entries[m], u, d) {
        assert IsOn(cfg, run.entries, n, m, u, d);
      } else if !SwitchesOff(cfg, run.entries[m], u, d) {
        if i :| IsOn(cfg, run.entries, m, i, u, d) {
          assert IsOn(cfg, run.entries, n, i, u, d);
        }
        if i :| IsOn(cfg, run.entries, n, i, u, d) {
          assert IsOn(cfg, run.entries, m, i, u, d);
        }
      }
    }
  }

  // The device list names exactly the devices with a committed login and no committed end of session since,
  // each once, and marks the caller's own.
  lemma DeviceListFollowsLog(cfg: Config, run: Run, n: nat, d: DeviceId)
    requires IsRun(cfg, run) && n < |run.entries|
    requires run.entries[n].call.ListDevicesCall? && Authenticated(run.entries[n])
    ensures run.entries[n].outcome.Done? && run.entries[n].outcome.response.DeviceList?
    ensures
      var infos := run.entries[n].outcome.response.devices;
      && ((exists info :: info in infos && info.deviceId == d) <==>
            exists i :: IsOn(cfg, run.entries, n, i, run.entries[n].call.token.sub, d))
      && (forall info, info' | info in infos && info' in infos && info.deviceId == info'.deviceId :: info == info')
      && (forall info | info in infos :: info.isCurrent <==> info.deviceId == run.entries[n].call.device)
  {
    var e, w := run.entries[n], run.worlds[n];
    var u := e.call.token.sub;
    ActiveFollowsLog(cfg, run, n, u, d);
    ListedAre(cfg, run, n);
    hide IsRun, IsOn, ActiveDevices;
    if d in ActiveDevices(w.db, u) {
      assert Describe(w.db, u, d, e.call.device) in ListDevices(w, u, e.call.device);
    }
  }

  lemma ListedAre(cfg: Config, run: Run, n: nat)
    requires IsRun(cfg, run) && n < |run.entries|
    requires run.entries[n].call.ListDevicesCall? && Authenticated(run.entries[n])
    ensures
      var e := run.entries[n];
      e.outcome == Done(DeviceList(ListDevices(run.worlds[n], e.call.token.sub, e.call.device)))
  {
    var e, w := run.entries[n], run.worlds[n];
    StepAtEffect(cfg, run, n);
    AuthenticatedStep(cfg, w, e);
    DecodedIsToken(w, e.call.token, e.call.device, e.t);
    hide IsRun, Inv, Fresh, ApplyEntry, Authenticate, ListDevices;
  }
}
