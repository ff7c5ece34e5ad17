/** How long a refresh token lives, to the microsecond, and what a slow rotation does to the token it replaces. */
module Lifetimes {
  import opened Base
  import opened Jwt
  import opened Protocol
  import opened Log
  import opened Runs
  import opened History

  // The two ends of a recorded refresh token: the record's TTL and the truncated exp of the JWT.

  function RecordEnd(cfg: Config, t: Timing): int {
    t.exec + TotalSeconds(RefreshExpiry(cfg, t.mintRt) - t.stamp) * SECOND
  }

  function JwtEnd(cfg: Config, t: Timing): nat {
    Instant(NumericDate(RefreshExpiry(cfg, t.mintRt)))
  }

  // Each end loses less than a second to truncation; the record's gains the delay between reading the clock
  // and Redis executing SETEX. Whatever the delays, the earlier of the two falls in (L - 1 s, L] after minting.
  lemma RefreshLifetimeBound(cfg: Config, t: Timing)
    requires t.Ordered() && Recorded(cfg, t)
    ensures
      var record, jwt, delay := RecordEnd(cfg, t), JwtEnd(cfg, t), t.exec - t.stamp;
      var life := (if record < jwt then record else jwt) - t.mintRt;
      && (cfg.refreshSeconds - 1) * SECOND < life <= cfg.refreshSeconds * SECOND
      && jwt - SECOND < record < jwt + SECOND + delay
  {
  }

  // The guard of the early return of store_refresh_token, in terms of configuration and delay.
  lemma RecordedIffPrompt(cfg: Config, t: Timing)
    ensures Recorded(cfg, t) <==> t.stamp + SECOND <= t.mintRt + cfg.refreshSeconds * SECOND
  {
  }

  // While a token is current, refresh accepts it up to one second short of its configured lifetime,
  // and never beyond it.
  lemma CurrentTokenLife(cfg: Config, run: Run, n: nat, i: nat)
    requires IsRun(cfg, run) && i < n < |run.entries| && run.entries[n].call.RefreshCall?
    requires MintedRefresh(run.entries[i]) == Some(run.entries[n].call.token)
    requires run.entries[n].call.device == run.entries[n].call.token.deviceId
    requires
      var token := run.entries[n].call.token;
      IsCurrent(cfg, run.entries, n, i, token.sub, token.deviceId)
    ensures
      var e, minted := run.entries[n], run.entries[i].t.mintRt;
      && (e.t.read <= minted + (cfg.refreshSeconds - 1) * SECOND ==> Accepted(e))
      && (Accepted(e) ==> e.t.decode < minted + cfg.refreshSeconds * SECOND)
  {
    var e, token := run.entries[n], run.entries[n].call.token;
    RefreshIffCurrent(cfg, run, n);
    MintEnds(cfg, run, i, token.sub, token.deviceId);
    OrderedAt(cfg, run, i);
    OrderedAt(cfg, run, n);
    RefreshLifetimeBound(cfg, run.entries[i].t);
    hide IsRun, IsCurrent, EffectOf, RecordExpiry, RecordEnd, JwtEnd, Instant, Recorded;
    if e.t.read <= run.entries[i].t.mintRt + (cfg.refreshSeconds - 1) * SECOND {
      assert AcceptableAt(cfg, run.entries, n, i);
    }
  }

  lemma OrderedAt(cfg: Config, run: Run, n: nat)
    requires IsRun(cfg, run) && n < |run.entries|
    ensures run.entries[n].t.Ordered()
  {
    hide Step, Fresh;
    assert StepAt(cfg, run, n);
  }

  lemma MintEnds(cfg: Config, run: Run, i: nat, u: UserId, d: DeviceId)
    requires IsRun(cfg, run) && i < |run.entries| && Mints(cfg, run.entries[i], u, d)
    ensures MintedRefresh(run.entries[i]).Some? && Recorded(cfg, run.entries[i].t)
    ensures RecordExpiry(cfg, run.entries[i]) == RecordEnd(cfg, run.entries[i].t)
    ensures Instant(MintedRefresh(run.entries[i]).value.exp) == JwtEnd(cfg, run.entries[i].t)
  {
    MintsIsMint(cfg, run, i, u, d);
    MintFacts(cfg, run, i);
    hide IsRun, EffectOf, TotalSeconds, NumericDate;
  }

  // ---- A slow rotation ----

  // After an accepted refresh the token it was given stays current iff the successor came too late to be stored.
  lemma RotationTakesHold(cfg: Config, run: Run, m: nat, i: int)
    requires IsRun(cfg, run) && m < |run.entries| && run.entries[m].call.RefreshCall?
    requires AcceptableAt(cfg, run.entries, m, i)
    ensures
      var token := run.entries[m].call.token;
      IsCurrent(cfg, run.entries, m + 1, i, token.sub, token.deviceId) <==> !Recorded(cfg, run.entries[m].t)
  {
    var token := run.entries[m].call.token;
    RefreshIffCurrent(cfg, run, m);
    RefreshIsMint(cfg, run, m);
    CurrentStep(cfg, run.entries, m + 1, token.sub, token.deviceId);
    if !Recorded(cfg, run.entries[m].t) {
      hide IsRun;
      assert EffectOf(cfg, run.entries[m]) == Nothing;
    }
  }

  // So "accepted at most once" is false without the prompt-store condition: presented again at once, the old token
  // is accepted again, exactly while neither of its own ends has passed.
  lemma SlowRotationRepeats(cfg: Config, run: Run, m: nat, i: int)
    requires IsRun(cfg, run) && m + 1 < |run.entries| && run.entries[m].call.RefreshCall?
    requires AcceptableAt(cfg, run.entries, m, i)
    requires run.entries[m + 1].call.RefreshCall? && run.entries[m + 1].call.token == run.entries[m].call.token
    requires run.entries[m + 1].call.device == run.entries[m].call.device
    ensures Accepted(run.entries[m + 1]) <==>
      && !Recorded(cfg, run.entries[m].t)
      && run.entries[m + 1].t.decode < Instant(run.entries[m].call.token.exp)
      && run.entries[m + 1].t.read < RecordExpiry(cfg, run.entries[i])
  {
    var n, token := m + 1, run.entries[m].call.token;
    RotationTakesHold(cfg, run, m, i);
    RefreshIffCurrent(cfg, run, n);
    if k :| AcceptableAt(cfg, run.entries, n, k) {
      SameId(cfg, run, i, k);
    }
    hide IsRun, IsCurrent;
    if IsCurrent(cfg, run.entries, n, i, token.sub, token.deviceId)
       && run.entries[n].t.decode < Instant(token.exp) && run.entries[n].t.read < RecordExpiry(cfg, run.entries[i]) {
      assert AcceptableAt(cfg, run.entries, n, i);
    }
  }
}
