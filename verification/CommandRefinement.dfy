/** A request whose commands run undisturbed leaves Redis, and answers, exactly as the whole-request step says. */
module CommandRefinement {
  import opened Base
  import opened Jwt
  import opened TypedRedis
  import opened Database
  import opened Protocol
  import opened Log
  import opened Runs
  import opened Commands
  import opened Interleaving

  lemma {:induction false} AloneConcat(th: Thread, r: RedisState, x: seq<nat>, y: seq<nat>)
    ensures
      var (th', r') := Alone(th, r, x);
      Alone(th, r, x + y) == Alone(th', r', y)
    decreases |x|
  {
    if x == [] {
      assert x + y == y;
    } else {
      assert (x + y)[0] == x[0] && (x + y)[1..] == x[1..] + y;
      AloneConcat(Next(th, r, x[0]), Write(th, r, x[0]), x[1..], y);
    }
  }

  lemma AloneOne(th: Thread, r: RedisState, now: nat)
    ensures Alone(th, r, [now]) == (Next(th, r, now), Write(th, r, now))
  {
    assert [now][1..] == [];
  }

  lemma {:induction false} AloneFinished(th: Thread, r: RedisState, times: seq<nat>)
    requires th.Finished?
    ensures Alone(th, r, times) == (th, r)
    decreases |times|
  {
    if times != [] {
      AloneFinished(th, r, times[1..]);
    }
  }

  // SETEX then SADD is store_refresh_token, early return included.
  lemma StoreAlone(u: UserId, d: DeviceId, args: StoreArgs, r: RedisState, exec: nat)
    ensures Alone(Store(u, d, args), r, [exec, exec]) ==
      (Finished(u, Granted), StoreRefresh(r, u, d, args.jti, args.client, args.expiresAt, args.stamp, exec))
  {
    var th := Store(u, d, args);
    assert [exec, exec] == [exec] + [exec];
    AloneConcat(th, r, [exec], [exec]);
    AloneOne(th, r, exec);
    AloneOne(Next(th, r, exec), Write(th, r, exec), exec);
  }

  // DEL then SREM is delete_refresh_token.
  lemma DeleteAlone(u: UserId, d: DeviceId, verdict: Verdict, r: RedisState, exec: nat)
    ensures Alone(Del(u, d, verdict), r, [exec, exec]) == (Finished(u, verdict), DeleteRefresh(r, u, d))
  {
    assert [exec, exec] == [exec] + [exec];
    AloneConcat(Del(u, d, verdict), r, [exec], [exec]);
    AloneOne(Del(u, d, verdict), r, exec);
    AloneOne(SRem(u, d, verdict), DropRt(r, u, d), exec);
  }

  // SMEMBERS then the pipeline is delete_all_refresh_tokens.
  lemma DeleteAllAlone(u: UserId, r: RedisState, exec: nat)
    ensures Alone(SMembers(u), r, [exec, exec]) == (Finished(u, Granted), DeleteAll(r, u))
  {
    assert [exec, exec] == [exec] + [exec];
    AloneConcat(SMembers(u), r, [exec], [exec]);
    AloneOne(SMembers(u), r, exec);
    AloneOne(Pipeline(u, Indexed(r, u)), r, exec);
  }

  function ArgsOf(cfg: Config, call: Call, t: Timing): StoreArgs
    requires call.LoginCall? || call.RefreshCall?
  {
    StoreArgs(call.rtId, ClientOf(call), RefreshExpiry(cfg, t.mintRt), t.stamp)
  }

  lemma LoginIsItsCommands(cfg: Config, w: World, u: UserId, call: Call, t: Timing)
    requires call.LoginCall? && u in w.db.users
    ensures Alone(LoginProgram(u, call.device, ArgsOf(cfg, call, t)), w.redis, [t.exec, t.exec])
            == (Finished(u, Granted), Login(cfg, w, u, call, t).0.redis)
  {
    StoreAlone(u, call.device, ArgsOf(cfg, call, t), w.redis, t.exec);
  }

  lemma RefreshIsItsCommands(cfg: Config, w: World, call: Call, t: Timing)
    requires call.RefreshCall?
    requires DecodeRefresh(w.signed, call.token, t.decode).Ok? && call.device == call.token.deviceId
    ensures
      var (w', o) := TryRefresh(cfg, w, call, t);
      Alone(RefreshProgram(call.token, Present(w.db, call.token.sub), ArgsOf(cfg, call, t)), w.redis,
            [t.read] + [t.exec, t.exec])
      == (Finished(call.token.sub, if o.Done? then Granted else Refused), w'.redis)
  {
    var token, args := call.token, ArgsOf(cfg, call, t);
    var th := RefreshProgram(token, Present(w.db, token.sub), args);
    AloneConcat(th, w.redis, [t.read], [t.exec, t.exec]);
    AloneOne(th, w.redis, t.read);
    StoreAlone(token.sub, token.deviceId, args, w.redis, t.exec);
    DeleteAlone(token.sub, token.deviceId, Refused, w.redis, t.exec);
    AloneFinished(Finished(token.sub, Refused), w.redis, [t.exec, t.exec]);
    hide Alone, StoreRefresh, DeleteRefresh;
  }

  // What the service of a protected request decides from the rows, once get_current_user let it through.
  predicate RowsAllow(db: DbState, call: Call)
    requires call.Protected()
  {
    var u := call.token.sub;
    match call
    case ChangePasswordCall(_, _, current, next) =>
      && Present(db, u) && VerifyPassword(current, db.users[u].hashedPassword)
      && !VerifyPassword(next, db.users[u].hashedPassword)
    case DeleteAccountCall(_, _, password) => Present(db, u) && VerifyPassword(password, db.users[u].hashedPassword)
    case ForceLogoutCall(token, _, target) => target != token.deviceId && target in ActiveDevices(db, u)
    case _ => true
  }

  // The commands of a protected request, given what its service decided.
  function ProtectedProgram(call: Call, t: Timing, allowed: bool): Thread
    requires call.Protected()
  {
    if !allowed then ReadOnlyProgram(call.token, Refused)
    else match call
      case LogoutCall(token, _) => LogoutProgram(token, t.stamp, t.revoke)
      case LogoutAllCall(token, _) => LogoutAllProgram(token, t.stamp, t.revoke)
      case ForceLogoutCall(token, _, target) => ForceLogoutProgram(token, target)
      case ListDevicesCall(token, _) => ReadOnlyProgram(token, Granted)
      case _ => RevokeAllProgram(call.token)
  }

  // EXISTS lets the request through iff get_current_user does.
  lemma ExistsAlone(w: World, token: Claims, device: DeviceId, t: Timing, rest: Thread, times: seq<nat>)
    requires DecodeAccess(w.signed, token, t.decode).Ok? && device == token.deviceId
    ensures Alone(Exists(token.sub, token.jti, rest), w.redis, [t.read] + times) ==
      if Authenticate(w, token, device, t).Ok? then Alone(rest, w.redis, times)
      else (Finished(token.sub, Refused), w.redis)
  {
    var th := Exists(token.sub, token.jti, rest);
    AloneConcat(th, w.redis, [t.read], times);
    AloneOne(th, w.redis, t.read);
    AloneFinished(Finished(token.sub, Refused), w.redis, times);
  }

  // The blacklist SETEX, when its TTL is positive; otherwise the request goes straight on.
  lemma RevokingAlone(token: Claims, record: BlRecord, stamp: nat, rest: Thread, r: RedisState, exec: nat)
    requires
      var after := Blacklist(r, token.jti, record, TotalSeconds(Instant(token.exp) - stamp), exec);
      Alone(rest, after, [exec, exec]).0.Finished?
    ensures
      var after := Blacklist(r, token.jti, record, TotalSeconds(Instant(token.exp) - stamp), exec);
      Alone(Revoking(token, record, stamp, rest), r, [exec, exec, exec]) == Alone(rest, after, [exec, exec])
  {
    var th := Revoking(token, record, stamp, rest);
    if TotalSeconds(Instant(token.exp) - stamp) <= 0 {
      assert [exec, exec, exec] == [exec, exec] + [exec];
      AloneConcat(th, r, [exec, exec], [exec]);
      var (last, r') := Alone(th, r, [exec, exec]);
      AloneFinished(last, r', [exec]);
    } else {
      assert [exec, exec, exec] == [exec] + [exec, exec];
      AloneConcat(th, r, [exec], [exec, exec]);
      AloneOne(th, r, exec);
    }
  }

  lemma LogoutIsItsCommands(cfg: Config, w: World, call: Call, t: Timing)
    requires call.LogoutCall?
    requires DecodeAccess(w.signed, call.token, t.decode).Ok? && call.device == call.token.deviceId
    ensures
      var (w', o) := Handle(cfg, w, call, t);
      Alone(LogoutProgram(call.token, t.stamp, t.revoke), w.redis, [t.read] + [t.exec, t.exec, t.exec])
      == (Finished(call.token.sub, if o.Done? then Granted else Refused), w'.redis)
  {
    var token := call.token;
    var record, del := LogoutRecord(token, t.revoke), Del(token.sub, token.deviceId, Granted);
    ExistsAlone(w, token, call.device, t, Revoking(token, record, t.stamp, del), [t.exec, t.exec, t.exec]);
    var r := Blacklist(w.redis, token.jti, record, TotalSeconds(Instant(token.exp) - t.stamp), t.exec);
    DeleteAlone(token.sub, token.deviceId, Granted, r, t.exec);
    RevokingAlone(token, record, t.stamp, del, w.redis, t.exec);
    DecodedIsToken(w, token, call.device, t);
    hide Alone, DeleteRefresh, Blacklist, TotalSeconds, Authenticate, SwitchedOff;
  }

  lemma LogoutAllIsItsCommands(cfg: Config, w: World, call: Call, t: Timing)
    requires call.LogoutAllCall?
    requires DecodeAccess(w.signed, call.token, t.decode).Ok? && call.device == call.token.deviceId
    ensures
      var (w', o) := Handle(cfg, w, call, t);
      Alone(LogoutAllProgram(call.token, t.stamp, t.revoke), w.redis, [t.read] + [t.exec, t.exec, t.exec])
      == (Finished(call.token.sub, if o.Done? then Granted else Refused), w'.redis)
  {
    var token := call.token;
    var record, rest := LogoutAllRecord(token, t.revoke), SMembers(token.sub);
    ExistsAlone(w, token, call.device, t, Revoking(token, record, t.stamp, rest), [t.exec, t.exec, t.exec]);
    var r := Blacklist(w.redis, token.jti, record, TotalSeconds(Instant(token.exp) - t.stamp), t.exec);
    DeleteAllAlone(token.sub, r, t.exec);
    RevokingAlone(token, record, t.stamp, rest, w.redis, t.exec);
    DecodedIsToken(w, token, call.device, t);
    hide Alone, DeleteAll, Blacklist, TotalSeconds, Authenticate, SwitchedOff, ActiveDevices;
  }

  // What the services that decide from rows do to Redis.
  lemma ServeRedis(w: World, call: Call, p: AccessPayload, t: Timing)
    requires call.ChangePasswordCall? || call.DeleteAccountCall? || call.ForceLogoutCall? || call.ListDevicesCall?
    requires PayloadOf(p, call.token)
    ensures
      var (w', o) := Serve(w, call, p, t);
      && (o.Done? <==> RowsAllow(w.db, call))
      && w'.redis ==
        if !RowsAllow(w.db, call) || call.ListDevicesCall? then w.redis
        else if call.ForceLogoutCall? then DeleteRefresh(w.redis, call.token.sub, call.target)
        else DeleteAll(w.redis, call.token.sub)
  {
    hide DeleteRefresh, DeleteAll, SwitchedOff, ActiveDevices, ListDevices;
  }

  // Password change, account deletion, forced logout and device list, whether or not their services let them through.
  lemma RevocationIsItsCommands(cfg: Config, w: World, call: Call, t: Timing)
    requires call.ChangePasswordCall? || call.DeleteAccountCall? || call.ForceLogoutCall? || call.ListDevicesCall?
    requires DecodeAccess(w.signed, call.token, t.decode).Ok? && call.device == call.token.deviceId
    ensures
      var (w', o) := Handle(cfg, w, call, t);
      Alone(ProtectedProgram(call, t, RowsAllow(w.db, call)), w.redis, [t.read] + [t.exec, t.exec])
      == (Finished(call.token.sub, if o.Done? then Granted else Refused), w'.redis)
  {
    var token := call.token;
    var p := Authenticate(w, token, call.device, t);
    DecodedIsToken(w, token, call.device, t);
    if p.Ok? {
      ServeRedis(w, call, p.value, t);
    }
    var rest := ProtectedProgram(call, t, RowsAllow(w.db, call)).rest;
    ExistsAlone(w, token, call.device, t, rest, [t.exec, t.exec]);
    hide Alone, DeleteAll, DeleteRefresh, Authenticate, Serve, RowsAllow;
    if rest.Finished? {
      AloneFinished(rest, w.redis, [t.exec, t.exec]);
    } else if call.ForceLogoutCall? {
      DeleteAlone(token.sub, call.target, Granted, w.redis, t.exec);
    } else {
      DeleteAllAlone(token.sub, w.redis, t.exec);
    }
  }

  // ---- Any request, at any instants ----

  // A request, with the rows and the signatures it sees.
  datatype Request = Request(call: Call, t: Timing, db: DbState, signed: set<Claims>)

  // The request as one step.
  ghost function Served(cfg: Config, req: Request, r: RedisState): (RedisState, Verdict) {
    var (w', o) := Handle(cfg, World(r, req.db, req.signed), req.call, req.t);
    (w'.redis, if o.Done? then Granted else Refused)
  }

  // The request as the commands it sends.
  ghost function Program(cfg: Config, req: Request): Thread {
    match req.call
    case SignupCall(newId, _, _, _) => Finished(newId, Served(cfg, req, EMPTY).1)
    case LoginCall(_, _, device, _, _, _) =>
      var o := TryLogin(cfg, World(EMPTY, req.db, req.signed), req.call, req.t).1;
      if o.Done? && o.response.LoggedIn? then LoginProgram(o.response.userId, device, ArgsOf(cfg, req.call, req.t))
      else Finished("", Refused)
    case RefreshCall(token, device, _, _, _) =>
      if DecodeRefresh(req.signed, token, req.t.decode).Err? || device != token.deviceId
      then Finished(token.sub, Refused)
      else RefreshProgram(token, Present(req.db, token.sub), ArgsOf(cfg, req.call, req.t))
    case _ =>
      var token := req.call.token;
      if DecodeAccess(req.signed, token, req.t.decode).Err? || req.call.device != token.deviceId
      then Finished(token.sub, Refused)
      else ProtectedProgram(req.call, req.t, RowsAllow(req.db, req.call))
  }

  // When Redis executes the commands that look at the clock: the first one reads, except in a login; then SETEX.
  predicate OnTime(req: Request, times: seq<nat>) {
    forall k | 0 <= k < |times| && k < |Clock(req)| :: times[k] == Clock(req)[k]
  }

  function Clock(req: Request): seq<nat> {
    if req.call.LoginCall? then [req.t.exec] else [req.t.read, req.t.exec]
  }

  // How many more commands of a thread may depend on the instant at which Redis executes them.
  function ClockReads(th: Thread): nat
    decreases th
  {
    match th
    case Get(_, _, _) => 2
    case SetEx(_, _, _) => 1
    case Exists(_, _, rest) => 1 + ClockReads(rest)
    case SetBlacklisted(_, _, _, _, rest) => 1 + ClockReads(rest)
    case _ => 0
  }

  lemma ClockReadsDrop(th: Thread, r: RedisState, now: nat, now': nat)
    ensures ClockReads(Next(th, r, now)) == 0 || ClockReads(Next(th, r, now)) < ClockReads(th)
    ensures ClockReads(th) == 0 ==> Next(th, r, now) == Next(th, r, now') && Write(th, r, now) == Write(th, r, now')
  {
  }

  // Two executions that both finish and agree on the instants that matter are one.
  lemma {:induction false} AloneAgrees(th: Thread, r: RedisState, x: seq<nat>, y: seq<nat>)
    requires Alone(th, r, x).0.Finished? && Alone(th, r, y).0.Finished?
    requires forall k | 0 <= k < |x| && k < |y| && k < ClockReads(th) :: x[k] == y[k]
    ensures Alone(th, r, x) == Alone(th, r, y)
    decreases |x|
  {
    if th.Finished? {
      AloneFinished(th, r, x);
      AloneFinished(th, r, y);
    } else {
      ClockReadsDrop(th, r, x[0], y[0]);
      hide Next, Write, ClockReads;
      AloneAgrees(Next(th, r, x[0]), Write(th, r, x[0]), x[1..], y[1..]);
    }
  }

  // A request that sends no command leaves Redis alone, and its verdict is known beforehand.
  lemma FinishedAtOnce(cfg: Config, req: Request, r: RedisState)
    requires Program(cfg, req).Finished?
    ensures Served(cfg, req, r) == (r, Program(cfg, req).verdict)
  {
    hide TotalSeconds, RowsAllow, UpsertDevice, FindByEmail;
  }

  // Some execution at the right instants is the whole-request step.
  lemma SomeTimes(cfg: Config, req: Request, r: RedisState) returns (times: seq<nat>)
    ensures OnTime(req, times) && |Clock(req)| <= |times|
    ensures Alone(Program(cfg, req), r, times) ==
      (Finished(Owner(Program(cfg, req)), Served(cfg, req, r).1), Served(cfg, req, r).0)
  {
    var w, call, t, th := World(r, req.db, req.signed), req.call, req.t, Program(cfg, req);
    times := if call.LoginCall? then [t.exec, t.exec] else [t.read] + [t.exec, t.exec];
    if th.Finished? {
      AloneFinished(th, r, times);
      FinishedAtOnce(cfg, req, r);
      hide Program, Served, Alone;
    } else if call.LoginCall? {
      LoginIsItsCommands(cfg, w, th.u, call, t);
      hide Login, Alone, Store;
    } else if call.RefreshCall? {
      RefreshIsItsCommands(cfg, w, call, t);
      hide TryRefresh, Alone;
    } else {
      times := ProtectedTimes(cfg, req, r);
    }
  }

  lemma ProtectedTimes(cfg: Config, req: Request, r: RedisState) returns (times: seq<nat>)
    requires req.call.Protected() && !Program(cfg, req).Finished?
    ensures OnTime(req, times) && |Clock(req)| <= |times|
    ensures Alone(Program(cfg, req), r, times) ==
      (Finished(Owner(Program(cfg, req)), Served(cfg, req, r).1), Served(cfg, req, r).0)
  {
    var w, call, t := World(r, req.db, req.signed), req.call, req.t;
    times := [t.read] + [t.exec, t.exec];
    if call.LogoutCall? || call.LogoutAllCall? {
      times := [t.read] + [t.exec, t.exec, t.exec];
    }
    match call {
      case LogoutCall(_, _) => LogoutIsItsCommands(cfg, w, call, t);
      case LogoutAllCall(_, _) => LogoutAllIsItsCommands(cfg, w, call, t);
      case _ => RevocationIsItsCommands(cfg, w, call, t);
    }
    hide Handle, Alone, RowsAllow;
  }

  // However its commands are timed, as long as it runs undisturbed to its end, a request is its whole-request step.
  lemma RequestIsItsCommands(cfg: Config, req: Request, r: RedisState, times: seq<nat>)
    requires OnTime(req, times) && Alone(Program(cfg, req), r, times).0.Finished?
    ensures Alone(Program(cfg, req), r, times) ==
      (Finished(Owner(Program(cfg, req)), Served(cfg, req, r).1), Served(cfg, req, r).0)
  {
    var full := SomeTimes(cfg, req, r);
    ProgramFacts(cfg, req);
    hide Alone, Program, Served, Clock;
    AloneAgrees(Program(cfg, req), r, times, full);
  }

  // ---- Which access tokens a request tests, and how often it looks at the clock ----

  lemma RevokingFacts(token: Claims, record: BlRecord, stamp: nat, rest: Thread)
    requires Ids(rest) == {} && OneOwner(rest) && Owner(rest) == token.sub && ClockReads(rest) == 0
    ensures
      var th := Revoking(token, record, stamp, rest);
      OneOwner(th) && Owner(th) == token.sub && Ids(th) <= {token.jti} && ClockReads(th) <= 1
  {
    hide TotalSeconds;
  }

  lemma ProtectedFacts(call: Call, t: Timing, allowed: bool)
    requires call.Protected()
    ensures
      var th := ProtectedProgram(call, t, allowed);
      OneOwner(th) && Owner(th) == call.token.sub && Ids(th) == {call.token.jti} && ClockReads(th) <= 2
  {
    var token := call.token;
    hide Revoking;
    assert Ids(Del(token.sub, token.deviceId, Granted)) == {} && Ids(SMembers(token.sub)) == {};
    if call.LogoutCall? {
      RevokingFacts(token, LogoutRecord(token, t.revoke), t.stamp, Del(token.sub, token.deviceId, Granted));
    } else if call.LogoutAllCall? {
      RevokingFacts(token, LogoutAllRecord(token, t.revoke), t.stamp, SMembers(token.sub));
    }
  }

  lemma ProgramFacts(cfg: Config, req: Request)
    ensures
      var th := Program(cfg, req);
      && OneOwner(th) && ClockReads(th) <= |Clock(req)|
      && (Ids(th) != {} ==>
            && req.call.Protected() && req.call.token in req.signed
            && Owner(th) == req.call.token.sub && Ids(th) == {req.call.token.jti})
  {
    if req.call.Protected() {
      ProtectedFacts(req.call, req.t, RowsAllow(req.db, req.call));
      hide ProtectedProgram;
    }
    hide TotalSeconds, RowsAllow, TryLogin, Served;
  }

  // Requests of different users, made with tokens signed under unique ids, test and blacklist different ids.
  lemma ProgramsAreSeparate(cfg: Config, signed: set<Claims>, req: Request, req': Request)
    requires UniqueIds(signed) && req.signed <= signed && req'.signed <= signed
    ensures
      var th, th' := Program(cfg, req), Program(cfg, req');
      OneOwner(th) && OneOwner(th') && (Owner(th) != Owner(th') ==> Ids(th) !! Ids(th'))
  {
    ProgramFacts(cfg, req);
    ProgramFacts(cfg, req');
    hide Program, OneOwner;
  }
}
