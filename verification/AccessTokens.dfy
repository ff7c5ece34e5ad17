/** Access tokens: who passes get_current_user in a run, and how far a logout binds the token it was made with. */
module AccessTokens {
  import opened Base
  import opened Jwt
  import opened TypedRedis
  import opened Database
  import opened Protocol
  import opened Log
  import opened Runs
  import opened History

  predicate IsAuthError(err: Error) {
    err in {InvalidToken, TokenExpired, DeviceMismatch, TokenRevoked, MissingClaim}
  }

  // The protected call got past get_current_user, whatever its service then said.
  predicate Authenticated(e: Entry) {
    e.call.Protected() && !(e.outcome.Failed? && IsAuthError(e.outcome.error))
  }

  // A logout or logout_all made with this token.
  predicate Revokes(e: Entry, token: Claims) {
    (e.call.LogoutCall? || e.call.LogoutAllCall?) && e.outcome.Done? && e.call.token == token
  }

  // The instant at which the blacklist entry of a logout goes; the logout itself when it leaves none.
  function RevocationEnd(e: Entry): nat
    requires e.call.LogoutCall? || e.call.LogoutAllCall?
  {
    if LogoutTtl(e) > 0 then e.t.exec + LogoutTtl(e) * SECOND else e.t.exec
  }

  lemma AuthenticatedStep(cfg: Config, w: World, e: Entry)
    requires e.call.Protected()
    requires Step(cfg, w, e.call, e.t, e.commits).1 == e.outcome
    ensures Authenticated(e) <==> Authenticate(w, e.call.token, e.call.device, e.t).Ok?
    ensures e.outcome.Done? ==> Authenticated(e)
  {
    hide DeleteRefresh, DeleteAll, Blacklist, SwitchedOff, TotalSeconds, ListDevices;
  }

  // ---- The blacklist follows the log ----

  predicate Blacklists(e: Entry, jti: Jti) {
    (e.call.LogoutCall? || e.call.LogoutAllCall?) && e.outcome.Done? && e.call.token.jti == jti && LogoutTtl(e) > 0
  }

  // The entry names the user and why: the token's device for a logout, every device for a logout_all.
  predicate Records(record: BlRecord, e: Entry)
    requires e.call.LogoutCall? || e.call.LogoutAllCall?
  {
    && record.userId == e.call.token.sub && record.revokedAt == e.t.revoke / SECOND
    && record.deviceId == (if e.call.LogoutCall? then e.call.token.deviceId else "all")
    && record.reason == (if e.call.LogoutCall? then "logout" else "logout_all")
  }

  lemma BlacklistStep(cfg: Config, run: Run, n: nat, jti: Jti)
    requires IsRun(cfg, run) && n < |run.entries|
    ensures
      var e, before, after := run.entries[n], run.worlds[n].redis.blacklist, run.worlds[n + 1].redis.blacklist;
      if Blacklists(e, jti) then
        && jti in after && after[jti].expiry == RevocationEnd(e) && Records(after[jti].value, e)
        && (jti in before ==> before[jti].expiry <= e.t.read)
      else (jti in after <==> jti in before) && (jti in after ==> after[jti] == before[jti])
  {
    var e, w := run.entries[n], run.worlds[n];
    StepAtEffect(cfg, run, n);
    EffectSparesBlacklist(EffectOf(cfg, e), ApplyBlacklist(e, w.redis));
    if Blacklists(e, jti) {
      AuthenticatedStep(cfg, w, e);
      DecodedIsToken(w, e.call.token, e.call.device, e.t);
    }
    hide IsRun, Inv, Fresh, EffectOf, Apply, ApplyDb, Step, TotalSeconds;
  }

  lemma EffectSparesBlacklist(effect: Effect, r: RedisState)
    ensures Apply(effect, r).blacklist == r.blacklist
  {
  }

  lemma {:induction false} BlacklistFollowsLog(cfg: Config, run: Run, n: nat, jti: Jti)
    requires IsRun(cfg, run) && n < |run.worlds|
    ensures
      var blacklist := run.worlds[n].redis.blacklist;
      jti in blacklist ==>
        exists j ::
          && 0 <= j < n && Blacklists(run.entries[j], jti)
          && blacklist[jti].expiry == RevocationEnd(run.entries[j]) && Records(blacklist[jti].value, run.entries[j])
    ensures
      var blacklist := run.worlds[n].redis.blacklist;
      forall j | 0 <= j < n && Blacklists(run.entries[j], jti) ::
        jti in blacklist &&
        (|| RevocationEnd(run.entries[j]) <= blacklist[jti].expiry
         || RevocationEnd(run.entries[j]) <= run.entries[n - 1].t.exec)
  {
    if n > 0 {
      BlacklistFollowsLog(cfg, run, n - 1, jti);
      BlacklistStep(cfg, run, n - 1, jti);
      assert run.entries[n - 1].t.Ordered() by { StepAtEffect(cfg, run, n - 1); }
      assert n > 1 ==> run.entries[n - 2].t.exec <= run.entries[n - 1].t.decode;
      hide IsRun, Blacklists, RevocationEnd, Records;
      if Blacklists(run.entries[n - 1], jti) {
      }
    }
  }

  // ---- Acceptance ----

  lemma AccessDecodedIsMinted(cfg: Config, run: Run, n: nat, token: Claims, now: nat)
    requires IsRun(cfg, run) && n < |run.worlds|
    requires DecodeAccess(run.worlds[n].signed, token, now).Ok?
    ensures exists i :: 0 <= i < n && MintedAccess(run.entries[i]) == Some(token)
  {
    SignedFollowsLog(cfg, run, n, token);
    var i :| 0 <= i < n && token in Minted(run.entries[i]);
    StepAtEffect(cfg, run, i);
    hide IsRun, Step;
    MintsAre(cfg, run.worlds[i], run.entries[i]);
  }

  lemma AccessMintFacts(cfg: Config, run: Run, i: nat, n: nat)
    requires IsRun(cfg, run) && i < n < |run.worlds| && MintedAccess(run.entries[i]).Some?
    ensures
      var at := MintedAccess(run.entries[i]).value;
      && at in run.worlds[n].signed && WellFormed(at) && at.kind == Access
      && Instant(at.iat) <= run.entries[i].t.exec
      && Instant(at.exp) <= run.entries[i].t.exec + cfg.accessSeconds * SECOND
  {
    StepAtEffect(cfg, run, i);
    MintsAre(cfg, run.worlds[i], run.entries[i]);
    MintFacts(cfg, run, i);
    SignedFollowsLog(cfg, run, n, MintedAccess(run.entries[i]).value);
    hide IsRun, Step;
    assert MintedAccess(run.entries[i]).value in Minted(run.entries[i]);
  }

  lemma AccessMintedDecodes(cfg: Config, run: Run, i: nat, n: nat)
    requires IsRun(cfg, run) && i < n < |run.entries| && MintedAccess(run.entries[i]).Some?
    requires run.entries[n].t.decode < Instant(MintedAccess(run.entries[i]).value.exp)
    ensures DecodeAccess(run.worlds[n].signed, MintedAccess(run.entries[i]).value, run.entries[n].t.decode).Ok?
  {
    AccessMintFacts(cfg, run, i, n);
    assert run.entries[i].t.exec <= run.entries[n].t.decode;
  }

  // A logout made with the id of this token was made with this token.
  lemma RevokerHeldToken(cfg: Config, run: Run, j: nat, n: nat, token: Claims)
    requires IsRun(cfg, run) && j < n < |run.worlds|
    requires token in run.worlds[n].signed && Blacklists(run.entries[j], token.jti)
    ensures Revokes(run.entries[j], token)
  {
    var e := run.entries[j];
    StepAtEffect(cfg, run, j);
    AuthenticatedStep(cfg, run.worlds[j], e);
    DecodedIsToken(run.worlds[j], e.call.token, e.call.device, e.t);
    SignedFollowsLog(cfg, run, j, e.call.token);
    SignedFollowsLog(cfg, run, n, e.call.token);
    InvAt(cfg, run, n);
    hide IsRun, Step, StatusMatchesDeletion, UniqueEmails, LiveWithinIndex, SignedForUsers, ApplyEntry, Fresh;
  }

  // In every run a protected call is authenticated iff its token is an access token this system minted,
  // presented from its device before its expiry, with the blacklist entry of every logout made with it gone.
  lemma AccessIffUnrevoked(cfg: Config, run: Run, n: nat)
    requires IsRun(cfg, run) && n < |run.entries| && run.entries[n].call.Protected()
    ensures
      var e := run.entries[n];
      var token := e.call.token;
      Authenticated(e) <==>
        && (exists i :: 0 <= i < n && MintedAccess(run.entries[i]) == Some(token))
        && e.call.device == token.deviceId
        && e.t.decode < Instant(token.exp)
        && forall j | 0 <= j < n && Revokes(run.entries[j], token) :: RevocationEnd(run.entries[j]) <= e.t.read
  {
    var e, w := run.entries[n], run.worlds[n];
    var token := e.call.token;
    StepAtEffect(cfg, run, n);
    AuthenticatedStep(cfg, w, e);
    BlacklistFollowsLog(cfg, run, n, token.jti);
    if Authenticated(e) {
      AccessDecodedIsMinted(cfg, run, n, token, e.t.decode);
      forall j | 0 <= j < n && Revokes(run.entries[j], token) ensures RevocationEnd(run.entries[j]) <= e.t.read {
        EarlierIsOver(cfg, run, j, n);
      }
    }
    if i :| 0 <= i < n && MintedAccess(run.entries[i]) == Some(token) {
      if e.t.decode < Instant(token.exp) {
        AccessMintedDecodes(cfg, run, i, n);
        if Blacklisted(w.redis, token.jti, e.t.read) {
          var j :| 0 <= j < n && Blacklists(run.entries[j], token.jti)
                   && w.redis.blacklist[token.jti].expiry == RevocationEnd(run.entries[j]);
          RevokerHeldToken(cfg, run, j, n, token);
        }
      }
    }
    hide IsRun, Step, Inv, Fresh, ApplyEntry, RevocationEnd, Blacklists, TotalSeconds;
  }

  lemma EarlierIsOver(cfg: Config, run: Run, j: nat, n: nat)
    requires IsRun(cfg, run) && j < n < |run.entries|
    ensures run.entries[j].t.exec <= run.entries[n - 1].t.exec <= run.entries[n].t.read
  {
    hide Step, Fresh;
    assert StepAt(cfg, run, n) && StepAt(cfg, run, n - 1);
    assert j < n - 1 ==> run.entries[j].t.exec <= run.entries[n - 1].t.decode;
  }

  // ---- How far a logout binds ----

  // The fraction of a second that the TTL truncates away exceeds the delay of SETEX:
  // the entry goes before the token does.
  predicate Reopens(e: Entry)
    requires e.call.LogoutCall? || e.call.LogoutAllCall?
  {
    var exp := Instant(e.call.token.exp);
    e.t.stamp <= exp && (exp - e.t.stamp) % SECOND > e.t.exec - e.t.stamp
  }

  // Pure arithmetic of the blacklist TTL: the entry outlives the token to within a second, counted from the
  // delay between reading the clock and Redis executing SETEX; to the microsecond on whole seconds; and it goes
  // before the token expires exactly when Reopens says so.
  lemma RevocationEndBound(e: Entry)
    requires e.call.LogoutCall? || e.call.LogoutAllCall?
    requires e.t.Ordered()
    ensures
      var exp, delay := Instant(e.call.token.exp), e.t.exec - e.t.stamp;
      && (e.t.stamp <= exp ==> exp - SECOND + delay < RevocationEnd(e) <= exp + delay)
      && (e.t.stamp <= exp && e.t.stamp % SECOND == 0 ==> RevocationEnd(e) == exp + delay)
      && (exp < e.t.stamp ==> RevocationEnd(e) == e.t.exec)
    ensures RevocationEnd(e) < Instant(e.call.token.exp) <==> Reopens(e)
    ensures e.t.stamp % SECOND == 0 ==> !Reopens(e)
  {
  }

  // After a logout its token is refused, except that a call whose Redis read falls in the last second
  // before exp may still pass; not even that unless the logout reopens.
  lemma LogoutBinds(cfg: Config, run: Run, j: nat, n: nat)
    requires IsRun(cfg, run) && j < n < |run.entries| && Authenticated(run.entries[n])
    requires Revokes(run.entries[j], run.entries[n].call.token)
    ensures
      var e, exp := run.entries[n], Instant(run.entries[n].call.token.exp);
      && e.t.decode < exp && exp - SECOND < e.t.read && RevocationEnd(run.entries[j]) <= e.t.read
      && (e.t.read < exp ==> Reopens(run.entries[j]))
      && (run.entries[j].t.stamp % SECOND == 0 ==> exp <= e.t.read)
  {
    AccessIffUnrevoked(cfg, run, n);
    StepAtEffect(cfg, run, j);
    RevocationEndBound(run.entries[j]);
    EarlierIsOver(cfg, run, j, n);
    assert run.entries[j].t.exec <= run.entries[n].t.decode;
  }

  // The exact condition. Since the latest logout made with it, a token passes again, presented from its device before
  // exp, iff the read falls at or after the revocation end; such a read before exp exists iff that logout reopens.
  lemma LogoutBindsIff(cfg: Config, run: Run, j: nat, n: nat)
    requires IsRun(cfg, run) && j < n < |run.entries| && run.entries[n].call.Protected()
    requires Revokes(run.entries[j], run.entries[n].call.token)
    requires forall k | j < k < n :: !Revokes(run.entries[k], run.entries[n].call.token)
    requires run.entries[n].call.device == run.entries[n].call.token.deviceId
    ensures
      var e, exp := run.entries[n], Instant(run.entries[n].call.token.exp);
      && (Authenticated(e) <==> e.t.decode < exp && RevocationEnd(run.entries[j]) <= e.t.read)
      && (RevocationEnd(run.entries[j]) < exp <==> Reopens(run.entries[j]))
  {
    var token := run.entries[n].call.token;
    StepAtEffect(cfg, run, j);
    RevocationEndBound(run.entries[j]);
    AuthenticatedStep(cfg, run.worlds[j], run.entries[j]);
    AccessIffUnrevoked(cfg, run, j);
    AccessIffUnrevoked(cfg, run, n);
    hide Step, Inv, Fresh, ApplyEntry, RevocationEnd, Reopens, Authenticated;
    EarlierIsOver(cfg, run, j, n);
    assert run.entries[j].t.read <= run.entries[n].t.read by {
      assert run.entries[j].t.exec <= run.entries[n].t.decode;
      StepAtEffect(cfg, run, n);
    }
    forall k | 0 <= k < n && Revokes(run.entries[k], token)
      ensures RevocationEnd(run.entries[k]) <= run.entries[n].t.read || k == j
    {
      assert k <= j;
    }
  }

  // The documentation promises that a password change voids access tokens at once. It does not:
  // nothing but a logout made with a token changes what get_current_user says of it.
  lemma OnlyLogoutsRevokeAccess(cfg: Config, w: World, e: Entry, token: Claims, device: DeviceId, t: Timing)
    requires Step(cfg, w, e.call, e.t, e.commits).1 == e.outcome
    requires token in w.signed
    requires !((e.call.LogoutCall? || e.call.LogoutAllCall?) && e.call.token.jti == token.jti)
    ensures Authenticate(Step(cfg, w, e.call, e.t, e.commits).0, token, device, t) == Authenticate(w, token, device, t)
  {
    StepEffect(cfg, w, e.call, e.t, e.commits);
    EffectSparesBlacklist(EffectOf(cfg, e), ApplyBlacklist(e, w.redis));
    hide Step, EffectOf, Apply, ApplyDb, Minted, TotalSeconds;
  }

  // ---- Mass revocation ----

  // From one access lifetime after the revocation on, an access token of u that still passes was minted after it,
  // and descends from a login after it.
  lemma AccessHorizon(cfg: Config, run: Run, m: nat, n: nat)
    requires IsRun(cfg, run) && m < n < |run.entries| && Authenticated(run.entries[n])
    requires RevokesUser(run.entries[m], run.entries[n].call.token.sub)
    requires run.entries[n].t.decode >= run.entries[m].t.exec + cfg.accessSeconds * SECOND
    ensures forall i | 0 <= i <= m :: MintedAccess(run.entries[i]) != Some(run.entries[n].call.token)
    ensures exists i: nat, o: nat ::
      m < o <= i < n && MintedAccess(run.entries[i]) == Some(run.entries[n].call.token)
      && run.entries[o].call.LoginCall? && Descends(run.entries, o, i)
  {
    var token := run.entries[n].call.token;
    AccessIffUnrevoked(cfg, run, n);
    forall i | 0 <= i <= m ensures MintedAccess(run.entries[i]) != Some(token) {
      if MintedAccess(run.entries[i]) == Some(token) {
        AccessMintFacts(cfg, run, i, n);
        EarlierIsOver(cfg, run, i, m + 1);
      }
    }
    var i: nat :| i < n && MintedAccess(run.entries[i]) == Some(token);
    StepAtEffect(cfg, run, i);
    MintsAre(cfg, run.worlds[i], run.entries[i]);
    MintFacts(cfg, run, i);
    hide IsRun, Step;
    if run.entries[i].call.LoginCall? {
      assert Descends(run.entries, i, i);
    } else {
      RefreshHorizon(cfg, run, m, i);
      var pair := run.entries[i].call.token;
      var o: nat :| m < o < i && LoginOf(cfg, run.entries[o], pair.sub, pair.deviceId) && Descends(run.entries, o, i);
      assert o <= i;
    }
  }
}
