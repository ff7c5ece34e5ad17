/**
 The state refines the history: whether refresh accepts a token is decided by one Redis record and one row,
 yet it equals a statement about the whole log of the run. Rotation, reuse detection and mass revocation follow.
 */
module History {
  import opened Base
  import opened Jwt
  import opened TypedRedis
  import opened Database
  import opened Protocol
  import opened Log
  import opened Runs

  // ---- What the log says about a (user, device) pair ----

  // A refresh token for the pair was minted and recorded.
  predicate Mints(cfg: Config, e: Entry, u: UserId, d: DeviceId) {
    EffectOf(cfg, e).Put? && EffectOf(cfg, e).u == u && EffectOf(cfg, e).d == d
  }

  // Logout, forced logout or detected reuse of the pair; logout_all, password change or deletion of the user.
  predicate Kills(cfg: Config, e: Entry, u: UserId, d: DeviceId) {
    EffectOf(cfg, e) == Remove(u, d) || EffectOf(cfg, e) == RemoveAll(u)
  }

  // Before entry n, entry i is the latest mint for the pair and nothing has killed the pair since.
  ghost predicate IsCurrent(cfg: Config, entries: seq<Entry>, n: nat, i: int, u: UserId, d: DeviceId)
    requires n <= |entries|
  {
    && 0 <= i < n
    && Mints(cfg, entries[i], u, d)
    && forall j | i < j < n :: !Mints(cfg, entries[j], u, d) && !Kills(cfg, entries[j], u, d)
  }

  function RecordExpiry(cfg: Config, e: Entry): nat
    requires EffectOf(cfg, e).Put?
  {
    EffectOf(cfg, e).entry.expiry
  }

  predicate Accepted(e: Entry) {
    e.call.RefreshCall? && e.outcome.Done?
  }

  predicate ReuseDetected(e: Entry) {
    e.call.RefreshCall? && e.outcome == Failed(InvalidRefreshToken(ReuseAlert))
  }

  // ---- Redis records follow the log ----

  lemma ApplyAt(effect: Effect, r: RedisState, u: UserId, d: DeviceId)
    requires (u, d) in r.rt ==> d in Indexed(r, u)
    ensures
      var after := Apply(effect, r).rt;
      if effect.Put? && effect.u == u && effect.d == d then (u, d) in after && after[(u, d)] == effect.entry
      else if effect == Remove(u, d) || effect == RemoveAll(u) then (u, d) !in after
      else ((u, d) in after <==> (u, d) in r.rt) && ((u, d) in after ==> after[(u, d)] == r.rt[(u, d)])
  {
  }

  lemma StepAtEffect(cfg: Config, run: Run, i: nat)
    requires IsRun(cfg, run) && i < |run.entries|
    ensures run.worlds[i + 1] == ApplyEntry(cfg, run.entries[i], run.worlds[i])
    ensures Inv(run.worlds[i]) && Fresh(run.worlds[i], run.entries[i].call) && run.entries[i].t.Ordered()
    ensures
      var e := run.entries[i];
      Step(cfg, run.worlds[i], e.call, e.t, e.commits).1 == e.outcome
  {
    var e := run.entries[i];
    assert StepAt(cfg, run, i);
    InvAt(cfg, run, i);
    StepEffect(cfg, run.worlds[i], e.call, e.t, e.commits);
  }

  lemma CurrentStep(cfg: Config, entries: seq<Entry>, n: nat, u: UserId, d: DeviceId)
    requires 0 < n <= |entries|
    ensures
      if Mints(cfg, entries[n - 1], u, d) then forall i :: IsCurrent(cfg, entries, n, i, u, d) <==> i == n - 1
      else if Kills(cfg, entries[n - 1], u, d) then forall i :: !IsCurrent(cfg, entries, n, i, u, d)
      else forall i :: IsCurrent(cfg, entries, n, i, u, d) <==> IsCurrent(cfg, entries, n - 1, i, u, d)
  {
    hide Mints, Kills;
  }

  predicate FollowsEntry(cfg: Config, e: Entry, before: RedisState, after: RedisState, u: UserId, d: DeviceId) {
    if Mints(cfg, e, u, d) then (u, d) in after.rt && after.rt[(u, d)] == EffectOf(cfg, e).entry
    else if Kills(cfg, e, u, d) then (u, d) !in after.rt
    else ((u, d) in after.rt <==> (u, d) in before.rt) && ((u, d) in after.rt ==> after.rt[(u, d)] == before.rt[(u, d)])
  }

  lemma EntryRecords(cfg: Config, e: Entry, w: World, u: UserId, d: DeviceId)
    requires (u, d) in w.redis.rt ==> d in Indexed(w.redis, u)
    ensures FollowsEntry(cfg, e, w.redis, ApplyEntry(cfg, e, w).redis, u, d)
  {
    var r := ApplyBlacklist(e, w.redis);
    assert r.rt == w.redis.rt && r.index == w.redis.index;
    ApplyAt(EffectOf(cfg, e), r, u, d);
    hide EffectOf, Apply, ApplyBlacklist, ApplyDb, Minted;
  }

  lemma RecordStep(cfg: Config, run: Run, n: nat, u: UserId, d: DeviceId)
    requires IsRun(cfg, run) && n < |run.entries|
    ensures FollowsEntry(cfg, run.entries[n], run.worlds[n].redis, run.worlds[n + 1].redis, u, d)
  {
    StepAtEffect(cfg, run, n);
    hide IsRun, Fresh, Step, ApplyEntry, FollowsEntry, UniqueEmails, StatusMatchesDeletion, UniqueIds, SignedForUsers;
    EntryRecords(cfg, run.entries[n], run.worlds[n], u, d);
  }

  lemma {:induction false} RecordFollowsLog(cfg: Config, run: Run, n: nat, u: UserId, d: DeviceId)
    requires IsRun(cfg, run) && n < |run.worlds|
    ensures (u, d) in run.worlds[n].redis.rt <==> exists i :: IsCurrent(cfg, run.entries, n, i, u, d)
    ensures forall i | IsCurrent(cfg, run.entries, n, i, u, d) ::
      Mints(cfg, run.entries[i], u, d) && run.worlds[n].redis.rt[(u, d)] == EffectOf(cfg, run.entries[i]).entry
  {
    if n > 0 {
      RecordFollowsLog(cfg, run, n - 1, u, d);
      RecordStep(cfg, run, n - 1, u, d);
      CurrentStep(cfg, run.entries, n, u, d);
      hide IsRun, EffectOf, Mints, Kills;
      if Mints(cfg, run.entries[n - 1], u, d) {
        assert IsCurrent(cfg, run.entries, n, n - 1, u, d);
      } else if !Kills(cfg, run.entries[n - 1], u, d) {
        var m := n - 1;
        if i :| IsCurrent(cfg, run.entries, m, i, u, d) {
          assert IsCurrent(cfg, run.entries, n, i, u, d);
        }
      }
    }
  }

  // Of the current mint of its pair a record keeps the token id, the headers of the request that minted it, and when
  // it was stored and will expire, in whole seconds.
  lemma RecordContents(cfg: Config, run: Run, n: nat, i: nat, u: UserId, d: DeviceId)
    requires IsRun(cfg, run) && n < |run.worlds| && IsCurrent(cfg, run.entries, n, i, u, d)
    ensures (u, d) in run.worlds[n].redis.rt && (run.entries[i].call.LoginCall? || run.entries[i].call.RefreshCall?)
    ensures
      var e, record := run.entries[i], run.worlds[n].redis.rt[(u, d)].value;
      && record.tokenId == e.call.rtId && record.userId == u && record.deviceId == d
      && record.client.deviceName == e.call.client.deviceName && record.client.appVersion == e.call.client.appVersion
      && record.client.ip == e.call.client.ip
      && record.client.osType ==
        (if e.call.LoginCall? && e.call.client.osType.None? then Some("unknown") else e.call.client.osType)
      && record.issuedAt == e.t.stamp / SECOND && record.expiresAt == e.t.mintRt / SECOND + cfg.refreshSeconds
  {
    RecordFollowsLog(cfg, run, n, u, d);
    MintsIsMint(cfg, run, i, u, d);
    MintFacts(cfg, run, i);
    hide IsRun, TotalSeconds;
  }

  lemma SignedStep(cfg: Config, run: Run, n: nat)
    requires IsRun(cfg, run) && n < |run.entries|
    ensures run.worlds[n + 1].signed == run.worlds[n].signed + Minted(run.entries[n])
  {
    StepAtEffect(cfg, run, n);
    hide IsRun, Inv, Fresh, EffectOf, Apply, ApplyDb, ApplyBlacklist, Step, Minted;
  }

  lemma {:induction false} SignedFollowsLog(cfg: Config, run: Run, n: nat, c: Claims)
    requires IsRun(cfg, run) && n < |run.worlds|
    ensures c in run.worlds[n].signed <==> exists i :: 0 <= i < n && c in Minted(run.entries[i])
  {
    if n > 0 {
      SignedFollowsLog(cfg, run, n - 1, c);
      SignedStep(cfg, run, n - 1);
      hide IsRun, Minted;
    }
  }

  // A recorded mint is the mint of the refresh token its response carries.
  lemma MintFacts(cfg: Config, run: Run, i: nat)
    requires IsRun(cfg, run) && i < |run.entries| && MintedRefresh(run.entries[i]).Some?
    ensures
      var e := run.entries[i];
      var at, rt := MintedAccess(e), MintedRefresh(e).value;
      && at.Some? && e.outcome.Done? && (e.call.LoginCall? || e.call.RefreshCall?)
      && WellFormed(rt) && WellFormed(at.value) && rt.kind == Refresh && at.value.kind == Access
      && at.value.sub == rt.sub && at.value.deviceId == rt.deviceId
      && Instant(rt.iat) <= e.t.exec && Instant(at.value.iat) <= e.t.exec
      && Instant(at.value.exp) <= e.t.exec + cfg.accessSeconds * SECOND
      && rt.exp == NumericDate(RefreshExpiry(cfg, e.t.mintRt))
      && at.value.jti == e.call.atId && rt.jti == e.call.rtId && at.value.jti != rt.jti
      && (forall c | c in run.worlds[i].signed :: c.jti != rt.jti && c.jti != at.value.jti)
      && (e.call.RefreshCall? ==> rt.sub == e.call.token.sub && rt.deviceId == e.call.token.deviceId)
      && Present(run.worlds[i].db, rt.sub)
    ensures
      var rt := MintedRefresh(run.entries[i]).value;
      EffectOf(cfg, run.entries[i]) ==
        if Recorded(cfg, run.entries[i].t) then PutEffect(cfg, run.entries[i]) else Nothing
  {
    StepAtEffect(cfg, run, i);
    hide IsRun, Step;
    MintsAre(cfg, run.worlds[i], run.entries[i]);
  }

  lemma MintsIsMint(cfg: Config, run: Run, i: nat, u: UserId, d: DeviceId)
    requires IsRun(cfg, run) && i < |run.entries| && Mints(cfg, run.entries[i], u, d)
    ensures MintedRefresh(run.entries[i]).Some?
    ensures
      var rt := MintedRefresh(run.entries[i]).value;
      && rt.sub == u && rt.deviceId == d && Recorded(cfg, run.entries[i].t)
      && EffectOf(cfg, run.entries[i]).entry.value.tokenId == rt.jti
      && RecordExpiry(cfg, run.entries[i]) == run.entries[i].t.exec +
        TotalSeconds(RefreshExpiry(cfg, run.entries[i].t.mintRt) - run.entries[i].t.stamp) * SECOND
  {
    hide IsRun;
  }

  // ---- The acceptance theorem ----

  // The token was minted by entry i, which is current for the token's pair before entry n,
  // and at entry n neither the JWT nor the record has expired.
  ghost predicate AcceptableAt(cfg: Config, entries: seq<Entry>, n: nat, i: int)
    requires n < |entries| && entries[n].call.RefreshCall?
  {
    var e := entries[n];
    var token := e.call.token;
    && IsCurrent(cfg, entries, n, i, token.sub, token.deviceId)
    && MintedRefresh(entries[i]) == Some(token)
    && e.call.device == token.deviceId
    && e.t.decode < Instant(token.exp)
    && e.t.read < RecordExpiry(cfg, entries[i])
  }

  lemma TokenIsMinted(cfg: Config, run: Run, i: nat, n: nat)
    requires IsRun(cfg, run) && i < n < |run.worlds| && MintedRefresh(run.entries[i]).Some?
    ensures MintedRefresh(run.entries[i]).value in run.worlds[n].signed
  {
    SignedFollowsLog(cfg, run, n, MintedRefresh(run.entries[i]).value);
    hide IsRun;
    assert MintedRefresh(run.entries[i]).value in Minted(run.entries[i]);
  }

  // Decoding a token this run minted fails only by expiry.
  lemma MintedDecodes(cfg: Config, run: Run, i: nat, n: nat)
    requires IsRun(cfg, run) && i < n < |run.entries| && MintedRefresh(run.entries[i]).Some?
    ensures
      var token := MintedRefresh(run.entries[i]).value;
      var now := run.entries[n].t.decode;
      DecodeRefresh(run.worlds[n].signed, token, now) ==
        if Instant(token.exp) <= now then Err(SessionExpired)
        else Ok(RefreshPayload(token.sub, token.deviceId, token.jti, Instant(token.exp), Instant(token.iat)))
  {
    TokenIsMinted(cfg, run, i, n);
    MintFacts(cfg, run, i);
    assert run.entries[i].t.exec <= run.entries[n].t.decode;
  }

  lemma DecodedIsMinted(cfg: Config, run: Run, n: nat, token: Claims, now: nat)
    requires IsRun(cfg, run) && n < |run.worlds|
    requires DecodeRefresh(run.worlds[n].signed, token, now).Ok?
    ensures exists i :: 0 <= i < n && MintedRefresh(run.entries[i]) == Some(token)
  {
    SignedFollowsLog(cfg, run, n, token);
    var i :| 0 <= i < n && token in Minted(run.entries[i]);
    StepAtEffect(cfg, run, i);
    hide IsRun, Step;
    MintsAre(cfg, run.worlds[i], run.entries[i]);
  }

  lemma RefreshStep(cfg: Config, run: Run, n: nat)
    requires IsRun(cfg, run) && n < |run.entries| && run.entries[n].call.RefreshCall?
    ensures TryRefresh(cfg, run.worlds[n], run.entries[n].call, run.entries[n].t).1 == run.entries[n].outcome
  {
    StepAtEffect(cfg, run, n);
    hide TryRefresh, IsRun, Inv, Fresh, ApplyEntry;
  }

  // Two minted refresh tokens with one id are one token.
  lemma SameId(cfg: Config, run: Run, i: nat, j: nat)
    requires IsRun(cfg, run) && i < |run.entries| && j < |run.entries|
    requires MintedRefresh(run.entries[i]).Some? && MintedRefresh(run.entries[j]).Some?
    requires MintedRefresh(run.entries[i]).value.jti == MintedRefresh(run.entries[j]).value.jti
    ensures i == j
  {
    var a, b := if i < j then i else j, if i < j then j else i;
    if a < b {
      TokenIsMinted(cfg, run, a, b);
      MintFacts(cfg, run, b);
    }
  }

  // In every run, refresh accepts a token iff it is the latest recorded refresh token of its pair, presented from
  // its device, with no logout, forced logout, mass revocation or detected reuse since, and still unexpired twice over.
  lemma RefreshIffCurrent(cfg: Config, run: Run, n: nat)
    requires IsRun(cfg, run) && n < |run.entries| && run.entries[n].call.RefreshCall?
    ensures Accepted(run.entries[n]) <==> exists i :: AcceptableAt(cfg, run.entries, n, i)
  {
    var e, w := run.entries[n], run.worlds[n];
    var token := e.call.token;
    RefreshStep(cfg, run, n);
    RecordFollowsLog(cfg, run, n, token.sub, token.deviceId);
    if Accepted(e) {
      DecodedIsMinted(cfg, run, n, token, e.t.decode);
      var k :| 0 <= k < n && MintedRefresh(run.entries[k]) == Some(token);
      var i :| IsCurrent(cfg, run.entries, n, i, token.sub, token.deviceId);
      MintsIsMint(cfg, run, i, token.sub, token.deviceId);
      SameId(cfg, run, i, k);
      assert AcceptableAt(cfg, run.entries, n, i);
    }
    if i :| AcceptableAt(cfg, run.entries, n, i) {
      MintedDecodes(cfg, run, i, n);
      MintsIsMint(cfg, run, i, token.sub, token.deviceId);
      InvAt(cfg, run, n);
      hide IsRun, StoreRefresh;
      assert (token.sub, token.deviceId) in w.redis.rt;
    }
  }

  // When every mint is stored promptly, "latest recorded" is "latest minted".
  lemma LatestMintedIsCurrent(cfg: Config, run: Run, n: nat, i: int)
    requires IsRun(cfg, run) && n <= |run.entries| && 0 <= i < n
    requires forall j | 0 <= j < n && MintedRefresh(run.entries[j]).Some? :: Recorded(cfg, run.entries[j].t)
    requires MintedRefresh(run.entries[i]).Some?
    ensures
      var rt := MintedRefresh(run.entries[i]).value;
      IsCurrent(cfg, run.entries, n, i, rt.sub, rt.deviceId) <==>
        forall j | i < j < n ::
          && !Kills(cfg, run.entries[j], rt.sub, rt.deviceId)
          && (MintedRefresh(run.entries[j]).Some? ==>
                var later := MintedRefresh(run.entries[j]).value;
                (later.sub, later.deviceId) != (rt.sub, rt.deviceId))
  {
    var u, d := MintedRefresh(run.entries[i]).value.sub, MintedRefresh(run.entries[i]).value.deviceId;
    forall j | 0 <= j < n
      ensures Mints(cfg, run.entries[j], u, d) <==>
        MintedRefresh(run.entries[j]).Some? &&
        MintedRefresh(run.entries[j]).value.sub == u && MintedRefresh(run.entries[j]).value.deviceId == d
    {
      if MintedRefresh(run.entries[j]).Some? {
        MintFacts(cfg, run, j);
      } else if Mints(cfg, run.entries[j], u, d) {
        MintsIsMint(cfg, run, j, u, d);
      }
    }
    hide IsRun, Mints, Kills, EffectOf;
  }

  // ---- Reuse detection ----

  // Reuse is reported iff an unexpired refresh token of this system is presented from its own device
  // while another token is current for its pair and live.
  lemma ReuseIffSuperseded(cfg: Config, run: Run, n: nat)
    requires IsRun(cfg, run) && n < |run.entries| && run.entries[n].call.RefreshCall?
    ensures
      var e := run.entries[n];
      var token := e.call.token;
      ReuseDetected(e) <==>
        && e.call.device == token.deviceId && e.t.decode < Instant(token.exp)
        && (exists k :: 0 <= k < n && MintedRefresh(run.entries[k]) == Some(token))
        && (exists i :: IsCurrent(cfg, run.entries, n, i, token.sub, token.deviceId)
                        && MintedRefresh(run.entries[i]) != Some(token)
                        && e.t.read < RecordExpiry(cfg, run.entries[i]))
  {
    var e, w := run.entries[n], run.worlds[n];
    var token := e.call.token;
    RefreshStep(cfg, run, n);
    RecordFollowsLog(cfg, run, n, token.sub, token.deviceId);
    if ReuseDetected(e) {
      DecodedIsMinted(cfg, run, n, token, e.t.decode);
      var i :| IsCurrent(cfg, run.entries, n, i, token.sub, token.deviceId);
      MintsIsMint(cfg, run, i, token.sub, token.deviceId);
    }
    if k, i :| 0 <= k < n && MintedRefresh(run.entries[k]) == Some(token)
               && IsCurrent(cfg, run.entries, n, i, token.sub, token.deviceId)
               && MintedRefresh(run.entries[i]) != Some(token)
               && e.t.read < RecordExpiry(cfg, run.entries[i])
               && e.call.device == token.deviceId && e.t.decode < Instant(token.exp) {
      MintedDecodes(cfg, run, k, n);
      MintsIsMint(cfg, run, i, token.sub, token.deviceId);
      if MintedRefresh(run.entries[i]).value.jti == token.jti {
        SameId(cfg, run, i, k);
        assert false;
      }
      hide IsRun, StoreRefresh;
    }
  }

  // ---- Rotation ----

  // Entry i is in the chain of rotations that login o started.
  ghost predicate Descends(entries: seq<Entry>, o: int, i: int)
    requires i < |entries|
    decreases i
  {
    && 0 <= o <= i && MintedRefresh(entries[i]).Some?
    && if entries[i].call.LoginCall? then o == i
       else
         && entries[i].call.RefreshCall?
         && exists p ::
              0 <= p < i && MintedRefresh(entries[p]) == Some(entries[i].call.token) && Descends(entries, o, p)
  }

  // An accepted refresh presents exactly what the previous link minted: the latest recorded mint of its pair.
  // That link is a login of the pair, or itself an accepted refresh; no kill lies between the two.
  lemma PreviousLink(cfg: Config, run: Run, n: nat) returns (i: nat)
    requires IsRun(cfg, run) && n < |run.entries| && Accepted(run.entries[n])
    ensures AcceptableAt(cfg, run.entries, n, i)
    ensures run.entries[i].call.LoginCall? || Accepted(run.entries[i])
    ensures
      var e, token := run.entries[i], run.entries[n].call.token;
      e.call.RefreshCall? ==> e.call.token.sub == token.sub && e.call.token.deviceId == token.deviceId
  {
    RefreshIffCurrent(cfg, run, n);
    var k :| AcceptableAt(cfg, run.entries, n, k);
    i := k;
    MintFacts(cfg, run, i);
  }

  // A refresh token is accepted a second time only when the first acceptance came too late to store its successor.
  lemma AcceptedAtMostOnce(cfg: Config, run: Run, m: nat, n: nat)
    requires IsRun(cfg, run) && m < n < |run.entries|
    requires Accepted(run.entries[m]) && Accepted(run.entries[n])
    requires run.entries[m].call.token.jti == run.entries[n].call.token.jti
    ensures !Recorded(cfg, run.entries[m].t)
  {
    var i := PreviousLink(cfg, run, m);
    var j := PreviousLink(cfg, run, n);
    SameId(cfg, run, i, j);
    RefreshIsMint(cfg, run, m);
    hide IsRun;
  }

  lemma RefreshIsMint(cfg: Config, run: Run, n: nat)
    requires IsRun(cfg, run) && n < |run.entries| && Accepted(run.entries[n])
    ensures MintedRefresh(run.entries[n]).Some?
    ensures Mints(cfg, run.entries[n], run.entries[n].call.token.sub, run.entries[n].call.token.deviceId)
            <==> Recorded(cfg, run.entries[n].t)
  {
    RefreshStep(cfg, run, n);
    RefreshMints(cfg, run.worlds[n], run.entries[n].call, run.entries[n].t);
    MintFacts(cfg, run, n);
  }

  predicate LoginOf(cfg: Config, e: Entry, u: UserId, d: DeviceId) {
    e.call.LoginCall? && Mints(cfg, e, u, d)
  }

  // Accepted refreshes form one chain from the latest login of their pair: every link back to it presented what the
  // link before minted, and between that login and the refresh nothing killed the pair or logged it in again.
  lemma {:induction false} RotationChain(cfg: Config, run: Run, n: nat)
    requires IsRun(cfg, run) && n < |run.entries| && Accepted(run.entries[n])
    ensures
      var token := run.entries[n].call.token;
      exists o: nat :: o < n && HeadsChain(cfg, run.entries, o, n, token.sub, token.deviceId)
    decreases n
  {
    var token := run.entries[n].call.token;
    var u, d := token.sub, token.deviceId;
    var i := PreviousLink(cfg, run, n);
    RefreshIsMint(cfg, run, n);
    LoginMintsNoKill(cfg, run.entries, n, i, u, d);
    if run.entries[i].call.LoginCall? {
      hide IsRun, Mints, Kills;
      assert Descends(run.entries, i, i);
      assert HeadsChain(cfg, run.entries, i, n, u, d);
    } else {
      RotationChain(cfg, run, i);
      hide IsRun, Mints, Kills, LoginOf;
      var o: nat :| o < i && HeadsChain(cfg, run.entries, o, i, u, d);
      assert HeadsChain(cfg, run.entries, o, n, u, d);
    }
  }

  ghost predicate HeadsChain(cfg: Config, entries: seq<Entry>, o: int, n: nat, u: UserId, d: DeviceId)
    requires n < |entries|
  {
    && 0 <= o <= n && LoginOf(cfg, entries[o], u, d) && Descends(entries, o, n)
    && forall j | o < j < n :: !Kills(cfg, entries[j], u, d) && !LoginOf(cfg, entries[j], u, d)
  }

  lemma LoginMintsNoKill(cfg: Config, entries: seq<Entry>, n: nat, i: int, u: UserId, d: DeviceId)
    requires n <= |entries| && IsCurrent(cfg, entries, n, i, u, d)
    ensures forall j | i < j < n :: !Kills(cfg, entries[j], u, d) && !LoginOf(cfg, entries[j], u, d)
    ensures !Kills(cfg, entries[i], u, d)
    ensures LoginOf(cfg, entries[i], u, d) <==> entries[i].call.LoginCall?
  {
  }

  // Following presented tokens back from refresh n, one reaches entry m.
  ghost predicate Leads(entries: seq<Entry>, m: int, n: int)
    requires n < |entries|
    decreases n
  {
    && 0 <= m < n && entries[n].call.RefreshCall?
    && exists p ::
      0 <= p < n && MintedRefresh(entries[p]) == Some(entries[n].call.token) && (p == m || Leads(entries, m, p))
  }

  // The chain is a line: of two accepted refreshes of a pair the earlier lies on the way back from the later
  // iff its successor was stored and nothing killed the pair or logged it in between the two.
  lemma {:induction false} ChainIffUninterrupted(cfg: Config, run: Run, m: nat, n: nat)
    requires IsRun(cfg, run) && m < n < |run.entries| && Accepted(run.entries[m]) && Accepted(run.entries[n])
    requires run.entries[m].call.token.sub == run.entries[n].call.token.sub
    requires run.entries[m].call.token.deviceId == run.entries[n].call.token.deviceId
    ensures
      var token := run.entries[n].call.token;
      Leads(run.entries, m, n) <==>
        && Recorded(cfg, run.entries[m].t)
        && forall j | m < j < n ::
          && !Kills(cfg, run.entries[j], token.sub, token.deviceId)
          && !LoginOf(cfg, run.entries[j], token.sub, token.deviceId)
    decreases n
  {
    var token := run.entries[n].call.token;
    var u, d := token.sub, token.deviceId;
    var i := PreviousLink(cfg, run, n);
    LoginMintsNoKill(cfg, run.entries, n, i, u, d);
    RefreshIsMint(cfg, run, m);
    assert forall p | 0 <= p < n && MintedRefresh(run.entries[p]) == Some(token) :: p == i by {
      forall p | 0 <= p < n && MintedRefresh(run.entries[p]) == Some(token) ensures p == i {
        SameId(cfg, run, p, i);
      }
    }
    if m < i && Accepted(run.entries[i]) {
      ChainIffUninterrupted(cfg, run, m, i);
    }
    hide IsRun, Kills, LoginOf, Recorded;
    assert Leads(run.entries, m, n) <==> i == m || Leads(run.entries, m, i);
  }

  // After a kill of the pair, acceptance needs a later login on that same pair, and descends from it.
  lemma LoginSinceKill(cfg: Config, run: Run, j: nat, n: nat)
    requires IsRun(cfg, run) && j < n < |run.entries| && Accepted(run.entries[n])
    requires Kills(cfg, run.entries[j], run.entries[n].call.token.sub, run.entries[n].call.token.deviceId)
    ensures
      var token := run.entries[n].call.token;
      exists o: nat ::
        j < o < n && LoginOf(cfg, run.entries[o], token.sub, token.deviceId) && Descends(run.entries, o, n)
  {
    RotationChain(cfg, run, n);
    var token := run.entries[n].call.token;
    var o: nat :| o < n && HeadsChain(cfg, run.entries, o, n, token.sub, token.deviceId);
    hide IsRun, Descends;
    assert o != j;
  }

  // Once an unexpired superseded token is presented from its own device while a record is live,
  // every later refresh on the pair is refused until a login on that same pair.
  lemma ReuseIsFinal(cfg: Config, run: Run, j: nat, n: nat)
    requires IsRun(cfg, run) && j < n < |run.entries| && run.entries[j].call.RefreshCall?
    requires
      var e := run.entries[j];
      var token := e.call.token;
      && e.call.device == token.deviceId && e.t.decode < Instant(token.exp)
      && (exists k :: 0 <= k < j && MintedRefresh(run.entries[k]) == Some(token))
      && (exists i :: IsCurrent(cfg, run.entries, j, i, token.sub, token.deviceId)
                      && MintedRefresh(run.entries[i]) != Some(token)
                      && e.t.read < RecordExpiry(cfg, run.entries[i]))
    requires run.entries[n].call.RefreshCall?
    requires run.entries[n].call.token.sub == run.entries[j].call.token.sub
    requires run.entries[n].call.token.deviceId == run.entries[j].call.token.deviceId
    requires forall o | j < o < n ::
      !LoginOf(cfg, run.entries[o], run.entries[j].call.token.sub, run.entries[j].call.token.deviceId)
    ensures ReuseDetected(run.entries[j]) && !Accepted(run.entries[n])
  {
    ReuseIffSuperseded(cfg, run, j);
    if Accepted(run.entries[n]) {
      LoginSinceKill(cfg, run, j, n);
    }
  }

  // ---- Mass revocation ----

  // logout_all, change_password or delete_account of u, with its Redis work done (whether or not it committed).
  predicate RevokesUser(e: Entry, u: UserId) {
    && (e.call.LogoutAllCall? || e.call.ChangePasswordCall? || e.call.DeleteAccountCall?)
    && e.outcome.Done? && e.call.token.sub == u
  }

  lemma RevokesKills(cfg: Config, e: Entry, u: UserId, d: DeviceId)
    requires RevokesUser(e, u)
    ensures Kills(cfg, e, u, d)
  {
  }

  // No refresh token minted before the revocation is ever accepted again, and what is accepted
  // descends from a login after it.
  lemma RefreshHorizon(cfg: Config, run: Run, m: nat, n: nat)
    requires IsRun(cfg, run) && m < n < |run.entries| && Accepted(run.entries[n])
    requires RevokesUser(run.entries[m], run.entries[n].call.token.sub)
    ensures forall i | 0 <= i <= m :: MintedRefresh(run.entries[i]) != Some(run.entries[n].call.token)
    ensures
      var token := run.entries[n].call.token;
      exists o: nat ::
        m < o < n && LoginOf(cfg, run.entries[o], token.sub, token.deviceId) && Descends(run.entries, o, n)
  {
    var token := run.entries[n].call.token;
    RevokesKills(cfg, run.entries[m], token.sub, token.deviceId);
    LoginSinceKill(cfg, run, m, n);
    var k := PreviousLink(cfg, run, n);
    forall i | 0 <= i <= m ensures MintedRefresh(run.entries[i]) != Some(token) {
      if MintedRefresh(run.entries[i]) == Some(token) {
        SameId(cfg, run, i, k);
      }
    }
  }
}
