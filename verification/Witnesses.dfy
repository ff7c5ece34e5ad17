/** Runs that show where natural claims fail, and that the theorems about runs are not vacuous. */
module Witnesses {
  import opened Base
  import opened TypedRedis
  import opened Protocol
  import opened Log
  import opened Runs
  import opened History
  import opened AccessTokens
  import opened Accounts
  import opened Sessions
  import opened Lifetimes

  // The run, continued by one request.
  ghost function Extended(cfg: Config, run: Run, call: Call, t: Timing, commits: bool): Run
    requires |run.worlds| > 0
  {
    var (w', o) := Step(cfg, run.worlds[|run.worlds| - 1], call, t, commits);
    Run(run.entries + [Entry(call, t, commits, o)], run.worlds + [w'])
  }

  lemma ExtendedIsRun(cfg: Config, run: Run, call: Call, t: Timing, commits: bool)
    requires IsRun(cfg, run) && Fresh(run.worlds[|run.entries|], call) && t.Ordered()
    requires forall e | e in run.entries :: e.t.exec <= t.decode
    ensures IsRun(cfg, Extended(cfg, run, call, t, commits))
    ensures
      var longer, n := Extended(cfg, run, call, t, commits), |run.entries|;
      |longer.entries| == n + 1 && longer.entries[..n] == run.entries
      && longer.entries[n].call == call && longer.entries[n].t == t
      && longer.entries[n].commits == commits
      && longer.worlds[..n + 1] == run.worlds
  {
    var longer := Extended(cfg, run, call, t, commits);
    hide Step, Fresh;
    forall i | 0 <= i < |longer.entries| ensures StepAt(cfg, longer, i) {
      if i < |run.entries| {
        assert StepAt(cfg, run, i);
      }
    }
    forall i, j | 0 <= i < j < |longer.entries| ensures longer.entries[i].t.exec <= longer.entries[j].t.decode {
      if j == |run.entries| {
        assert run.entries[i] in run.entries;
      }
    }
  }

  const QUICK := Timing(0, 0, 0, 0, 0, 0, 0, 0)
  const SLOW := Timing(1, 1, 1, 1, 1, 2, 2, 2)
  const AGAIN := Timing(3, 3, 3, 3, 3, 3, 3, 3)
  const PHONE := ClientInfo(None, None, None, None, None)

  lemma SignedUpRun(cfg: Config) returns (run: Run)
    ensures IsRun(cfg, run) && |run.entries| == 1 && run.entries[0].t == QUICK
    ensures run.entries[0].call == SignupCall("u", "e", "p", "n") && run.entries[0].Committed()
    ensures run.worlds[1].signed == {} && run.worlds[1].db.devices == map[] && run.worlds[1].redis == EMPTY
  {
    hide Step;
    var empty := Run([], [INIT]);
    var signup := SignupCall("u", "e", "p", "n");
    ExtendedIsRun(cfg, empty, signup, QUICK, true);
    run := Extended(cfg, empty, signup, QUICK, true);
    SignupIffNewEmail(cfg, run, 0);
    StepAtEffect(cfg, run, 0);
    MintsAre(cfg, run.worlds[0], run.entries[0]);
    NothingSigned(cfg, run, 1);
  }

  lemma LoggedInRun(cfg: Config, commits: bool) returns (run: Run)
    ensures IsRun(cfg, run) && |run.entries| == 2 && run.entries[0].t == run.entries[1].t == QUICK
    ensures run.entries[1].commits == commits && run.worlds[1].db.devices == map[] && run.worlds[1].redis == EMPTY
    ensures run.entries[1].call == LoginCall("e", "p", "d", PHONE, "a1", "r1") && run.entries[1].outcome.Done?
    ensures !run.entries[0].call.LoginCall? && !run.entries[0].call.RefreshCall?
    ensures run.entries[0].call == SignupCall("u", "e", "p", "n") && run.entries[0].Committed()
  {
    hide Step;
    var before := SignedUpRun(cfg);
    var login := LoginCall("e", "p", "d", PHONE, "a1", "r1");
    ExtendedIsRun(cfg, before, login, QUICK, commits);
    run := Extended(cfg, before, login, QUICK, commits);
    assert run.entries[0] == before.entries[0] by { assert run.entries[..1][0] == before.entries[0]; }
    assert run.worlds[1] == before.worlds[1] by { assert run.worlds[..2][1] == before.worlds[1]; }
    LoginIffLastPassword(cfg, run, 1);
    hide IsRun, Extended;
    assert SignsUp(run.entries[0], "u");
    assert SetLast(run.entries, 1, 0, "u");
  }

  // A refresh while the token of the login is still good is accepted.
  lemma RefreshedRun(cfg: Config, commits: bool, t: Timing) returns (run: Run)
    requires t.Ordered() && t.read < cfg.refreshSeconds * SECOND
    ensures IsRun(cfg, run) && |run.entries| == 3 && run.entries[2].call.RefreshCall?
    ensures run.entries[1].call.LoginCall? && run.entries[1].call.atId == "a1" && run.entries[1].call.rtId == "r1"
    ensures run.entries[1].outcome.Done? && run.entries[1].commits == commits && run.entries[1].call.device == "d"
    ensures run.entries[2].call.device == "d" && run.entries[2].call.atId == "a2" && run.entries[2].call.rtId == "r2"
    ensures !run.entries[0].call.LoginCall? && !run.entries[0].call.RefreshCall?
    ensures run.entries[0].t == run.entries[1].t == QUICK && run.entries[2].t == t
    ensures AcceptableAt(cfg, run.entries, 2, 1) && Accepted(run.entries[2])
    ensures MintedRefresh(run.entries[1]) == Some(run.entries[2].call.token)
    ensures RecordExpiry(cfg, run.entries[1]) == Instant(run.entries[2].call.token.exp) == cfg.refreshSeconds * SECOND
    ensures run.worlds[1].db.devices == map[] && run.worlds[1].redis == EMPTY
  {
    hide Step;
    var before := LoggedInRun(cfg, commits);
    LoginMintsPair(cfg, before, 1);
    var token := MintedRefresh(before.entries[1]).value;
    OnlyMinted(cfg, before, 2);
    var call := RefreshCall(token, "d", PHONE, "a2", "r2");
    ExtendedIsRun(cfg, before, call, t, true);
    run := Extended(cfg, before, call, t, true);
    assert run.entries[0] == before.entries[0] && run.entries[1] == before.entries[1] by {
      assert run.entries[..2][0] == before.entries[0] && run.entries[..2][1] == before.entries[1];
    }
    assert run.worlds[1] == before.worlds[1] by { assert run.worlds[..3][1] == before.worlds[1]; }
    MintFacts(cfg, run, 1);
    MintEnds(cfg, run, 1, token.sub, token.deviceId);
    RefreshIffCurrent(cfg, run, 2);
    hide IsRun, Extended;
    assert AcceptableAt(cfg, run.entries, 2, 1);
  }

  // With a refresh lifetime of one second, a store that reads the clock one microsecond after minting
  // leaves the old record standing, and the same refresh token is accepted twice.
  lemma DoubleAcceptance()
    ensures exists cfg, run ::
      && IsRun(cfg, run) && |run.entries| == 4 && Accepted(run.entries[2]) && Accepted(run.entries[3])
      && run.entries[2].call.token == run.entries[3].call.token
  {
    hide Step;
    var cfg := Config(1, 1);
    var before := RefreshedRun(cfg, true, SLOW);
    OnlyMinted(cfg, before, 3);
    var call := RefreshCall(before.entries[2].call.token, "d", PHONE, "a3", "r3");
    ExtendedIsRun(cfg, before, call, AGAIN, true);
    var run := Extended(cfg, before, call, AGAIN, true);
    assert run.entries[1] == before.entries[1] && run.entries[2] == before.entries[2] by {
      assert run.entries[..3][1] == before.entries[1] && run.entries[..3][2] == before.entries[2];
    }
    assert run.entries[..3] == before.entries;
    hide IsRun, EffectOf;
    assert AcceptableAt(cfg, run.entries, 2, 1);
    SlowRotationRepeats(cfg, run, 2, 1);
  }

  // A login whose commit fails leaves a working refresh token on a device without an active row.
  lemma OrphanSession()
    ensures exists cfg, run ::
      && IsRun(cfg, run) && |run.entries| == 3 && run.entries[1].call.LoginCall?
      && run.entries[1].outcome.Done? && !run.entries[1].commits
      && LiveWithinIndex(run.worlds[2]) && !IndexWithinActive(run.worlds[2])
      && Accepted(run.entries[2]) && MintedRefresh(run.entries[1]) == Some(run.entries[2].call.token)
  {
    hide Step;
    var cfg := DEFAULT_CONFIG;
    var run := RefreshedRun(cfg, false, QUICK);
    StepAtEffect(cfg, run, 1);
    InvAt(cfg, run, 2);
    LoginIsMint(cfg, run.worlds[1], run.entries[1]);
    SandwichStep(cfg, run.worlds[1], run.entries[1]);
    assert OrphanLogin(cfg, run.worlds[1], run.entries[1]);
  }

  // ---- Access tokens after a logout and after a password change ----

  // Whatever the run: after a logout its token passes again before exp, at some instant, iff the logout reopens.
  lemma PassesAfterLogoutIff(cfg: Config, run: Run)
    requires IsRun(cfg, run) && run.entries != []
    requires
      var last := run.entries[|run.entries| - 1];
      last.call.Protected() && Revokes(last, last.call.token)
    ensures
      var last := run.entries[|run.entries| - 1];
      Reopens(last) <==> exists t :: PassesAt(cfg, run, t)
  {
    var n, last := |run.entries|, run.entries[|run.entries| - 1];
    var end := RevocationEnd(last);
    hide Step;
    StepAtEffect(cfg, run, n - 1);
    RevocationEndBound(last);
    if Reopens(last) {
      var t := Timing(end, end, end, end, end, end, end, end);
      NextCallPasses(cfg, run, t);
      assert PassesAt(cfg, run, t);
    }
    if t :| PassesAt(cfg, run, t) {
      NextCallPasses(cfg, run, t);
    }
  }

  // The device list, asked for next with the token of the run's last entry, is served, and read before exp.
  ghost predicate PassesAt(cfg: Config, run: Run, t: Timing)
    requires |run.worlds| == |run.entries| + 1 && run.entries != []
    requires run.entries[|run.entries| - 1].call.Protected()
  {
    var n, last := |run.entries|, run.entries[|run.entries| - 1];
    && t.Ordered() && last.t.exec <= t.decode && t.read < Instant(last.call.token.exp)
    && Authenticated(Extended(cfg, run, AskDevices(last), t, true).entries[n])
  }

  function AskDevices(e: Entry): Call
    requires e.call.Protected()
  {
    ListDevicesCall(e.call.token, e.call.token.deviceId)
  }

  lemma NextCallPasses(cfg: Config, run: Run, t: Timing)
    requires IsRun(cfg, run) && run.entries != [] && t.Ordered()
    requires
      var last := run.entries[|run.entries| - 1];
      last.call.Protected() && Revokes(last, last.call.token) && last.t.exec <= t.decode
    ensures
      var n, last := |run.entries|, run.entries[|run.entries| - 1];
      Authenticated(Extended(cfg, run, AskDevices(last), t, true).entries[n]) <==>
        t.decode < Instant(last.call.token.exp) && RevocationEnd(last) <= t.read
  {
    hide Step;
    var n, last := |run.entries|, run.entries[|run.entries| - 1];
    forall e | e in run.entries ensures e.t.exec <= t.decode {
      var i :| 0 <= i < n && run.entries[i] == e;
      assert i < n - 1 ==> e.t.exec <= last.t.decode;
      StepAtEffect(cfg, run, n - 1);
    }
    ExtendedIsRun(cfg, run, AskDevices(last), t, true);
    var longer := Extended(cfg, run, AskDevices(last), t, true);
    assert longer.entries[n - 1] == last by { assert longer.entries[..n][n - 1] == last; }
    LogoutBindsIff(cfg, longer, n - 1, n);
  }

  // A protected call made next with the token of a login of the run that no logout was made with.
  lemma UnrevokedCall(cfg: Config, before: Run, call: Call, t: Timing) returns (run: Run)
    requires IsRun(cfg, before) && |before.entries| >= 2 && before.entries[1].t == QUICK
    requires MintedAccess(before.entries[1]).Some?
    requires forall e | e in before.entries :: !e.call.LogoutCall? && !e.call.LogoutAllCall?
    requires call.Protected() && call.device == call.token.deviceId
    requires MintedAccess(before.entries[1]) == Some(call.token)
    requires t.Ordered() && t.decode < cfg.accessSeconds * SECOND
    requires forall e | e in before.entries :: e.t.exec <= t.decode
    ensures run == Extended(cfg, before, call, t, true) && IsRun(cfg, run) && |run.entries| == |before.entries| + 1
    ensures run.entries[..|before.entries|] == before.entries && run.entries[|before.entries|].call == call
    ensures run.entries[|before.entries|].t == t && run.entries[|before.entries|].commits
    ensures Instant(call.token.exp) == cfg.accessSeconds * SECOND
    ensures Authenticated(run.entries[|before.entries|])
  {
    hide Step;
    var n := |before.entries|;
    ExtendedIsRun(cfg, before, call, t, true);
    run := Extended(cfg, before, call, t, true);
    forall i | 0 <= i < n ensures run.entries[i] == before.entries[i] {
      assert run.entries[..n][i] == before.entries[i];
    }
    StepAtEffect(cfg, run, 1);
    MintsAre(cfg, run.worlds[1], run.entries[1]);
    AccessIffUnrevoked(cfg, run, n);
  }

  const HALF := Timing(500_000, 500_000, 500_000, 500_000, 500_000, 500_000, 500_000, 500_000)

  // An access token of two seconds, logged out half a second after login, passes again before it expires.
  lemma LogoutGap()
    ensures exists cfg, run, t ::
      && IsRun(cfg, run) && |run.entries| == 3 && run.entries[2].call.LogoutCall?
      && Revokes(run.entries[2], run.entries[2].call.token) && PassesAt(cfg, run, t)
  {
    hide Step;
    var cfg := Config(2, 10);
    var before := LoggedInRun(cfg, true);
    LoginMintsPair(cfg, before, 1);
    var token := MintedAccess(before.entries[1]).value;
    var run := UnrevokedCall(cfg, before, LogoutCall(token, token.deviceId), HALF);
    StepAtEffect(cfg, run, 2);
    LogoutFinishes(cfg, run.worlds[2], run.entries[2]);
    PassesAfterLogoutIff(cfg, run);
    assert Reopens(run.entries[2]);
  }

  lemma LogoutFinishes(cfg: Config, w: World, e: Entry)
    requires e.call.LogoutCall? && Authenticated(e)
    requires Step(cfg, w, e.call, e.t, e.commits).1 == e.outcome
    ensures e.outcome.Done?
  {
    AuthenticatedStep(cfg, w, e);
    hide DeleteRefresh, Blacklist, TotalSeconds, Authenticate;
  }

  lemma ChangedRun(cfg: Config) returns (run: Run)
    requires cfg.accessSeconds > 0
    ensures IsRun(cfg, run) && |run.entries| == 3 && forall e | e in run.entries :: e.t == QUICK
    ensures run.entries[1].call.LoginCall? && run.entries[0].call.SignupCall?
    ensures run.entries[2].call.ChangePasswordCall? && run.entries[2].Committed()
    ensures MintedAccess(run.entries[1]) == Some(run.entries[2].call.token)
  {
    hide Step;
    var before := LoggedInRun(cfg, true);
    LoginMintsPair(cfg, before, 1);
    var token := MintedAccess(before.entries[1]).value;
    run := UnrevokedCall(cfg, before, ChangePasswordCall(token, token.deviceId, "p", "q"), QUICK);
    assert run.entries[0] == before.entries[0] && run.entries[1] == before.entries[1] by {
      assert run.entries[..2][0] == before.entries[0] && run.entries[..2][1] == before.entries[1];
    }
    StepAtEffect(cfg, run, 1);
    MintsAre(cfg, run.worlds[1], run.entries[1]);
    RowFollowsLog(cfg, run, 1, token.sub);
    ChangeIffLastPassword(cfg, run, 2);
    hide IsRun, Extended, ApplyEntry, Inv, Fresh;
    assert SetLast(run.entries, 2, 0, token.sub);
  }

  // A password change commits, and an access token minted before it still passes afterwards.
  lemma StaleAccess()
    ensures exists cfg, run ::
      && IsRun(cfg, run) && |run.entries| == 4
      && run.entries[2].call.ChangePasswordCall? && run.entries[2].Committed()
      && MintedAccess(run.entries[1]) == Some(run.entries[2].call.token)
      && Authenticated(run.entries[3]) && run.entries[3].call.token == run.entries[2].call.token
  {
    var before := ChangedRun(DEFAULT_CONFIG);
    var token := before.entries[2].call.token;
    var run := UnrevokedCall(DEFAULT_CONFIG, before, ListDevicesCall(token, token.deviceId), QUICK);
    assert run.entries[1] == before.entries[1] && run.entries[2] == before.entries[2] by {
      assert run.entries[..3][1] == before.entries[1] && run.entries[..3][2] == before.entries[2];
    }
    hide IsRun, Extended;
  }

  lemma NothingSigned(cfg: Config, run: Run, n: nat)
    requires IsRun(cfg, run) && n < |run.worlds|
    requires forall i | 0 <= i < n :: Minted(run.entries[i]) == {}
    ensures run.worlds[n].signed == {}
  {
    if c :| c in run.worlds[n].signed {
      SignedFollowsLog(cfg, run, n, c);
    }
  }

  lemma LoginMintsPair(cfg: Config, run: Run, n: nat)
    requires IsRun(cfg, run) && n < |run.entries| && run.entries[n].call.LoginCall? && run.entries[n].outcome.Done?
    ensures MintedRefresh(run.entries[n]).Some? && MintedAccess(run.entries[n]).Some?
    ensures MintedRefresh(run.entries[n]).value.deviceId == run.entries[n].call.device
  {
    StepAtEffect(cfg, run, n);
    LoginMints(cfg, run.worlds[n], run.entries[n].call, run.entries[n].t);
  }

  // Every signed token carries an id that some earlier call drew.
  lemma OnlyMinted(cfg: Config, run: Run, n: nat)
    requires IsRun(cfg, run) && n < |run.worlds|
    ensures forall c | c in run.worlds[n].signed ::
      exists i :: 0 <= i < n && (run.entries[i].call.LoginCall? || run.entries[i].call.RefreshCall?)
                  && c.jti in {run.entries[i].call.atId, run.entries[i].call.rtId}
  {
    forall c | c in run.worlds[n].signed
      ensures exists i :: 0 <= i < n && (run.entries[i].call.LoginCall? || run.entries[i].call.RefreshCall?)
                  && c.jti in {run.entries[i].call.atId, run.entries[i].call.rtId}
    {
      SignedFollowsLog(cfg, run, n, c);
      var i :| 0 <= i < n && c in Minted(run.entries[i]);
      StepAtEffect(cfg, run, i);
      MintsAre(cfg, run.worlds[i], run.entries[i]);
    }
  }
}
