/** What requests answer: every response and every refusal, told from the log alone. */
module Answers {
  import opened Base
  import opened Jwt
  import opened TypedRedis
  import opened Database
  import opened Protocol
  import opened Log
  import opened Runs
  import opened History
  import opened AccessTokens
  import opened Accounts
  import opened Sessions

  // ---- The tokens a request hands out ----

  // A token of this system for user and device, minted at an instant for a number of seconds, with these two claims.
  predicate MadeOut(c: Claims, kind: Kind, u: UserId, d: DeviceId, id: Jti, at: nat, seconds: nat,
                    email: Option<string>, name: Option<string>)
  {
    && c.kind == kind && c.sub == u && c.deviceId == d && c.jti == id
    && c.iat == at / SECOND && c.exp == at / SECOND + seconds
    && c.email == email && c.name == name
    && c.iss == "sample-auth-api" && c.aud == if kind == Access then Some("sample-app") else None
  }

  // Both tokens of a login or refresh are made out to one user, who signed up with the email and the name that the
  // access token carries, and to the device that asked.
  ghost predicate TokensFor(cfg: Config, e: Entry, signup: Call)
    requires signup.SignupCall? && (e.call.LoginCall? || e.call.RefreshCall?)
  {
    && MintedAccess(e).Some? && MintedRefresh(e).Some?
    && MadeOut(MintedAccess(e).value, Access, signup.newId, e.call.device, e.call.atId, e.t.mintAt, cfg.accessSeconds,
               Some(signup.email), Some(signup.name))
    && MadeOut(MintedRefresh(e).value, Refresh, signup.newId, e.call.device, e.call.rtId, e.t.mintRt,
               cfg.refreshSeconds, None, None)
  }

  lemma ClaimsAreMadeOut(cfg: Config, u: UserId, email: string, name: string, d: DeviceId, atId: Jti, rtId: Jti,
                         mintAt: nat, mintRt: nat)
    ensures MadeOut(AccessClaims(cfg, u, email, name, d, atId, mintAt), Access, u, d, atId, mintAt, cfg.accessSeconds,
                    Some(email), Some(name))
    ensures MadeOut(RefreshClaims(cfg, u, d, rtId, mintRt), Refresh, u, d, rtId, mintRt, cfg.refreshSeconds, None, None)
  {
  }

  // A finished login answers with the account that signed up with the email it gave.
  lemma LoginNamesAccount(cfg: Config, run: Run, n: nat)
    requires IsRun(cfg, run) && n < |run.entries| && run.entries[n].call.LoginCall? && run.entries[n].outcome.Done?
    ensures exists s ::
      && 0 <= s < n && run.entries[s].call.SignupCall? && run.entries[s].Committed()
      && run.entries[s].call.email == run.entries[n].call.email
      && TokensFor(cfg, run.entries[n], run.entries[s].call)
      && var r := run.entries[n].outcome.response; var signup := run.entries[s].call;
      r == LoggedIn(MintedAccess(run.entries[n]).value, MintedRefresh(run.entries[n]).value,
                    signup.newId, signup.email, signup.name)
  {
    var e, w := run.entries[n], run.worlds[n];
    StepAtEffect(cfg, run, n);
    LoginMints(cfg, w, e.call, e.t);
    var r := e.outcome.response;
    RowFollowsLog(cfg, run, n, r.userId);
    ClaimsAreMadeOut(cfg, r.userId, r.email, r.name, e.call.device, e.call.atId, e.call.rtId, e.t.mintAt, e.t.mintRt);
    hide IsRun, Inv, Fresh, ApplyEntry, TryLogin, MadeOut, AccessClaims, RefreshClaims;
    var s :| 0 <= s < n && SignsUp(run.entries[s], r.userId);
    assert TokensFor(cfg, e, run.entries[s].call);
  }

  // An accepted refresh hands out tokens for the user of the token it was given.
  lemma RefreshNamesAccount(cfg: Config, run: Run, n: nat)
    requires IsRun(cfg, run) && n < |run.entries| && Accepted(run.entries[n])
    ensures exists s ::
      && 0 <= s < n && SignsUp(run.entries[s], run.entries[n].call.token.sub)
      && TokensFor(cfg, run.entries[n], run.entries[s].call)
      && run.entries[n].outcome ==
        Done(Refreshed(MintedAccess(run.entries[n]).value, MintedRefresh(run.entries[n]).value))
  {
    var e, w := run.entries[n], run.worlds[n];
    var u := e.call.token.sub;
    RefreshStep(cfg, run, n);
    RefreshMints(cfg, w, e.call, e.t);
    RowFollowsLog(cfg, run, n, u);
    var row := w.db.users[u];
    ClaimsAreMadeOut(cfg, u, row.email, row.name, e.call.device, e.call.atId, e.call.rtId, e.t.mintAt, e.t.mintRt);
    hide IsRun, TryRefresh, MadeOut, AccessClaims, RefreshClaims;
    var s :| 0 <= s < n && SignsUp(run.entries[s], u);
    assert TokensFor(cfg, e, run.entries[s].call);
  }

  // ---- Decoding, in terms of the log ----

  // Before entry n this token was minted, as whatever kind.
  predicate Known(entries: seq<Entry>, n: nat, token: Claims)
    requires n <= |entries|
  {
    exists i :: 0 <= i < n && token in Minted(entries[i])
  }

  predicate KnownRefresh(entries: seq<Entry>, n: nat, token: Claims)
    requires n <= |entries|
  {
    exists i :: 0 <= i < n && MintedRefresh(entries[i]) == Some(token)
  }

  predicate KnownAccess(entries: seq<Entry>, n: nat, token: Claims)
    requires n <= |entries|
  {
    exists i :: 0 <= i < n && MintedAccess(entries[i]) == Some(token)
  }

  // What the signature and the log say of a token presented at entry n.
  lemma TokenFacts(cfg: Config, run: Run, n: nat, token: Claims)
    requires IsRun(cfg, run) && n < |run.entries|
    ensures token in run.worlds[n].signed <==> Known(run.entries, n, token)
    ensures KnownRefresh(run.entries, n, token) <==> Known(run.entries, n, token) && token.kind == Refresh
    ensures KnownAccess(run.entries, n, token) <==> Known(run.entries, n, token) && token.kind == Access
    ensures Known(run.entries, n, token) ==> WellFormed(token) && Instant(token.iat) <= run.entries[n].t.decode
  {
    SignedFollowsLog(cfg, run, n, token);
    forall i | 0 <= i < n
      ensures MintedRefresh(run.entries[i]) == Some(token) <==> token in Minted(run.entries[i]) && token.kind == Refresh
      ensures MintedAccess(run.entries[i]) == Some(token) <==> token in Minted(run.entries[i]) && token.kind == Access
      ensures token in Minted(run.entries[i]) ==> WellFormed(token) && Instant(token.iat) <= run.entries[n].t.decode
    {
      MintedKinds(cfg, run, i);
      assert run.entries[i].t.exec <= run.entries[n].t.decode;
    }
    hide IsRun, MintedAccess, MintedRefresh, Minted, WellFormed;
  }

  lemma MintedKinds(cfg: Config, run: Run, i: nat)
    requires IsRun(cfg, run) && i < |run.entries|
    ensures MintedAccess(run.entries[i]).Some? <==> MintedRefresh(run.entries[i]).Some?
    ensures MintedRefresh(run.entries[i]).Some? ==>
      var at, rt := MintedAccess(run.entries[i]).value, MintedRefresh(run.entries[i]).value;
      && at.kind == Access && rt.kind == Refresh && WellFormed(at) && WellFormed(rt)
      && Instant(at.iat) <= run.entries[i].t.exec && Instant(rt.iat) <= run.entries[i].t.exec
  {
    StepAtEffect(cfg, run, i);
    MintsAre(cfg, run.worlds[i], run.entries[i]);
    if MintedRefresh(run.entries[i]).Some? {
      MintFacts(cfg, run, i);
    }
    hide IsRun, Step, Inv, Fresh, ApplyEntry;
  }

  // ---- Refresh ----

  // Every refusal of refresh, told from the log; with RefreshIffCurrent and ReuseIffSuperseded nothing is left open.
  lemma RefreshAnswers(cfg: Config, run: Run, n: nat)
    requires IsRun(cfg, run) && n < |run.entries| && run.entries[n].call.RefreshCall?
    ensures
      var e := run.entries[n];
      var token := e.call.token;
      var expired := Instant(token.exp) <= e.t.decode;
      && (e.outcome == Failed(SessionExpired) <==> Known(run.entries, n, token) && expired)
      && (e.outcome == Failed(InvalidRefreshToken(DeviceMismatchAlert)) <==>
            KnownRefresh(run.entries, n, token) && !expired && e.call.device != token.deviceId)
      && (e.outcome == Failed(InvalidRefreshToken(NoAlert)) <==>
            && !Accepted(e) && !ReuseDetected(e)
            && !(Known(run.entries, n, token) && expired)
            && !(KnownRefresh(run.entries, n, token) && e.call.device != token.deviceId))
  {
    var e, w := run.entries[n], run.worlds[n];
    RefreshStep(cfg, run, n);
    TokenFacts(cfg, run, n, e.call.token);
    RefreshDecision(cfg, w, e.call, e.t);
    hide IsRun, TryRefresh, Known, KnownRefresh, KnownAccess;
  }

  lemma RefreshDecision(cfg: Config, w: World, call: Call, t: Timing)
    requires call.RefreshCall?
    ensures
      var p, o := DecodeRefresh(w.signed, call.token, t.decode), TryRefresh(cfg, w, call, t).1;
      && (p.Err? ==> o == Failed(p.error))
      && (o == Failed(SessionExpired) <==> p == Err(SessionExpired))
      && (o == Failed(InvalidRefreshToken(DeviceMismatchAlert)) <==> p.Ok? && p.value.deviceId != call.device)
      && (o.Failed? ==> o.error == SessionExpired || o.error.InvalidRefreshToken?)
  {
    hide StoreRefresh, DeleteRefresh, GetRt;
  }

  // ---- get_current_user ----

  // Every refusal of get_current_user, told from the log.
  lemma AuthenticationAnswers(cfg: Config, run: Run, n: nat)
    requires IsRun(cfg, run) && n < |run.entries| && run.entries[n].call.Protected()
    ensures
      var e := run.entries[n];
      var token := e.call.token;
      var expired, access := Instant(token.exp) <= e.t.decode, KnownAccess(run.entries, n, token);
      var revoked := exists j ::
        0 <= j < n && Revokes(run.entries[j], token) && e.t.read < RevocationEnd(run.entries[j]);
      && (e.outcome == Failed(TokenExpired) <==> Known(run.entries, n, token) && expired)
      && (e.outcome == Failed(DeviceMismatch) <==> access && !expired && e.call.device != token.deviceId)
      && (e.outcome == Failed(TokenRevoked) <==> access && !expired && e.call.device == token.deviceId && revoked)
      && (e.outcome == Failed(InvalidToken) <==> !access && !(Known(run.entries, n, token) && expired))
      && (Authenticated(e) <==> access && !expired && e.call.device == token.deviceId && !revoked)
  {
    var e, w := run.entries[n], run.worlds[n];
    StepAtEffect(cfg, run, n);
    AuthenticatedStep(cfg, w, e);
    RefusalIsAuthentications(cfg, w, e);
    TokenFacts(cfg, run, n, e.call.token);
    AuthenticateDecision(w, e.call.token, e.call.device, e.t);
    AccessIffUnrevoked(cfg, run, n);
    hide IsRun, Step, Inv, Fresh, ApplyEntry, Authenticate, Known, KnownRefresh, Revokes, RevocationEnd, Blacklisted;
  }

  // A protected request fails with an error of get_current_user iff get_current_user raised it.
  lemma RefusalIsAuthentications(cfg: Config, w: World, e: Entry)
    requires e.call.Protected()
    requires Step(cfg, w, e.call, e.t, e.commits).1 == e.outcome
    ensures
      var p := Authenticate(w, e.call.token, e.call.device, e.t);
      && (p.Err? ==> e.outcome == Failed(p.error) && IsAuthError(p.error))
      && (p.Ok? ==> !(e.outcome.Failed? && IsAuthError(e.outcome.error)))
  {
    hide DeleteRefresh, DeleteAll, Blacklist, SwitchedOff, TotalSeconds, ListDevices;
  }

  lemma AuthenticateDecision(w: World, token: Claims, device: DeviceId, t: Timing)
    requires token in w.signed ==> WellFormed(token) && Instant(token.iat) <= t.decode
    ensures Authenticate(w, token, device, t) ==
      if token in w.signed && Instant(token.exp) <= t.decode then Err(TokenExpired)
      else if token !in w.signed || token.kind != Access then Err(InvalidToken)
      else if device != token.deviceId then Err(DeviceMismatch)
      else if Blacklisted(w.redis, token.jti, t.read) then Err(TokenRevoked)
      else DecodeAccess(w.signed, token, t.decode)
    ensures Authenticate(w, token, device, t).Ok? ==> DecodeAccess(w.signed, token, t.decode).Ok?
  {
  }

  // ---- The other answers ----

  // An authenticated logout always goes through.
  lemma LogoutAnswers(cfg: Config, run: Run, n: nat)
    requires IsRun(cfg, run) && n < |run.entries| && Authenticated(run.entries[n])
    ensures run.entries[n].call.LogoutCall? ==> run.entries[n].outcome == Done(LoggedOut)
    ensures run.entries[n].call.LogoutAllCall? ==>
      run.entries[n].outcome == Done(LoggedOutAll(|Indexed(run.worlds[n].redis, run.entries[n].call.token.sub)|))
  {
    var e, w := run.entries[n], run.worlds[n];
    CallerHasRow(cfg, run, n);
    if e.call.LogoutAllCall? {
      LogoutsFinish(cfg, w, e);
      LogoutAllCount(cfg, w, e);
    } else if e.call.LogoutCall? {
      LogoutsFinish(cfg, w, e);
    }
    hide IsRun, Step, Authenticate;
  }

  lemma LogoutsFinish(cfg: Config, w: World, e: Entry)
    requires e.call.LogoutCall? || e.call.LogoutAllCall?
    requires Authenticate(w, e.call.token, e.call.device, e.t).Ok?
    requires Step(cfg, w, e.call, e.t, e.commits).1 == e.outcome
    ensures e.outcome.Done? && (e.call.LogoutCall? ==> e.outcome == Done(LoggedOut))
  {
    hide Authenticate, DeleteRefresh, DeleteAll, Blacklist, SwitchedOff, TotalSeconds, ActiveDevices;
  }

  // A forced logout refuses the caller's own device first, then any device without a session of the log.
  lemma ForceLogoutAnswers(cfg: Config, run: Run, n: nat)
    requires IsRun(cfg, run) && n < |run.entries| && run.entries[n].call.ForceLogoutCall?
    requires Authenticated(run.entries[n])
    ensures
      var e := run.entries[n];
      var own := e.call.target == e.call.device;
      var on := exists i :: IsOn(cfg, run.entries, n, i, e.call.token.sub, e.call.target);
      && (e.outcome == Failed(CannotLogoutCurrentDevice) <==> own)
      && (e.outcome == Failed(DeviceNotFound) <==> !own && !on)
      && (e.outcome == Done(DeviceLoggedOut) <==> !own && on)
  {
    var e := run.entries[n];
    CallerHasRow(cfg, run, n);
    ActiveFollowsLog(cfg, run, n, e.call.token.sub, e.call.target);
    ForceLogoutDecision(cfg, run.worlds[n], e);
    hide IsRun, Step, IsOn, ActiveDevices, Authenticate;
  }

  lemma ForceLogoutDecision(cfg: Config, w: World, e: Entry)
    requires e.call.ForceLogoutCall? && Authenticate(w, e.call.token, e.call.device, e.t).Ok?
    requires Step(cfg, w, e.call, e.t, e.commits).1 == e.outcome
    ensures e.outcome ==
      if e.call.target == e.call.device then Failed(CannotLogoutCurrentDevice)
      else if e.call.target !in ActiveDevices(w.db, e.call.token.sub) then Failed(DeviceNotFound)
      else Done(DeviceLoggedOut)
  {
    DecodedIsToken(w, e.call.token, e.call.device, e.t);
    hide Authenticate, DeleteRefresh, SwitchedOff, ActiveDevices;
  }
}
