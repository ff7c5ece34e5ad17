/**
 Rotation when refreshes interleave: each token id holds its record for one contiguous interval at most,
 and a second refresh is let in exactly while nothing has touched the record.
 */
module Races {
  import opened Base
  import opened Jwt
  import opened TypedRedis
  import opened Commands
  import opened Interleaving

  // The refresh-token id a thread may still write.
  function Writes(th: Thread): Option<Jti>
    decreases th
  {
    match th
    case Get(_, _, args) => Some(args.jti)
    case SetEx(_, _, args) => Some(args.jti)
    case Exists(_, _, rest) => Writes(rest)
    case SetBlacklisted(_, _, _, _, rest) => Writes(rest)
    case _ => None
  }

  ghost predicate Pending(s: System, j: Jti) {
    exists i :: i in s.threads && Writes(s.threads[i]) == Some(j)
  }

  predicate Holds(s: System, u: UserId, d: DeviceId, j: Jti) {
    (u, d) in s.redis.rt && s.redis.rt[(u, d)].value.tokenId == j
  }

  // Fresh ids: no two threads will write the same one, and none is in a record yet.
  ghost predicate FreshWrites(s: System) {
    && (forall i, k | i in s.threads && k in s.threads && Writes(s.threads[i]).Some?
                      && Writes(s.threads[i]) == Writes(s.threads[k]) :: i == k)
    && (forall p: (UserId, DeviceId) | p in s.redis.rt :: !Pending(s, s.redis.rt[p].value.tokenId))
  }

  lemma NextWrites(th: Thread, r: RedisState, now: nat)
    ensures Writes(Next(th, r, now)).Some? ==> Writes(Next(th, r, now)) == Writes(th) && !th.SetEx?
  {
  }

  // A record changes only by being dropped, or by the SETEX of a thread that was to write its new id.
  lemma WriteRecords(th: Thread, r: RedisState, now: nat, p: (UserId, DeviceId))
    ensures
      var after := Write(th, r, now).rt;
      p in after ==>
        if th.SetEx? && p == (th.u, th.d) then Some(after[p].value.tokenId) == Writes(th)
        else p in r.rt && after[p] == r.rt[p]
  {
  }

  lemma PendingOnlyShrinks(s: System, a: Action, j: Jti)
    requires Pending(Do(s, a), j)
    ensures Pending(s, j)
  {
    var i :| i in Do(s, a).threads && Writes(Do(s, a).threads[i]) == Some(j);
    if a.tid in s.threads {
      NextWrites(s.threads[a.tid], s.redis, a.now);
    }
    hide Next, Write;
    assert Writes(s.threads[i]) == Some(j);
  }

  lemma DoKeepsFresh(s: System, a: Action)
    requires FreshWrites(s)
    ensures FreshWrites(Do(s, a))
  {
    if a.tid in s.threads {
      var th, s' := s.threads[a.tid], Do(s, a);
      NextWrites(th, s.redis, a.now);
      forall p: (UserId, DeviceId) | p in s'.redis.rt ensures !Pending(s', s'.redis.rt[p].value.tokenId) {
        var j := s'.redis.rt[p].value.tokenId;
        WriteRecords(th, s.redis, a.now, p);
        if Pending(s', j) {
          PendingOnlyShrinks(s, a, j);
        }
      }
      hide Next, Write, Pending;
    }
  }

  // An id nobody is still to write never comes back to a record it is not in.
  lemma GoneStaysGone(s: System, a: Action, u: UserId, d: DeviceId, j: Jti)
    requires !Holds(s, u, d, j) && !Pending(s, j)
    ensures !Holds(Do(s, a), u, d, j) && !Pending(Do(s, a), j)
  {
    if Pending(Do(s, a), j) {
      PendingOnlyShrinks(s, a, j);
    }
    if a.tid in s.threads {
      var th := s.threads[a.tid];
      WriteRecords(th, s.redis, a.now, (u, d));
      assert Writes(th) == Some(j) ==> Pending(s, j);
    }
    hide Next, Write;
  }

  // ---- Along a schedule ----

  function At(s: System, schedule: seq<Action>, n: nat): System
    requires n <= |schedule|
  {
    if n == 0 then s else Do(At(s, schedule, n - 1), schedule[n - 1])
  }

  lemma AtStep(s: System, schedule: seq<Action>, n: nat)
    requires n < |schedule|
    ensures At(s, schedule, n + 1) == Do(At(s, schedule, n), schedule[n])
  {
  }

  lemma {:induction false} FreshAt(s: System, schedule: seq<Action>, n: nat)
    requires FreshWrites(s) && n <= |schedule|
    ensures FreshWrites(At(s, schedule, n))
  {
    if n > 0 {
      FreshAt(s, schedule, n - 1);
      DoKeepsFresh(At(s, schedule, n - 1), schedule[n - 1]);
    }
  }

  lemma {:induction false} GoneFrom(s: System, schedule: seq<Action>, m: nat, n: nat, u: UserId, d: DeviceId, j: Jti)
    requires m <= n <= |schedule|
    requires !Holds(At(s, schedule, m), u, d, j) && !Pending(At(s, schedule, m), j)
    ensures !Holds(At(s, schedule, n), u, d, j)
    ensures !Pending(At(s, schedule, n), j)
    decreases n
  {
    if m < n {
      GoneFrom(s, schedule, m, n - 1, u, d, j);
      GoneStaysGone(At(s, schedule, n - 1), schedule[n - 1], u, d, j);
    }
  }

  lemma {:induction false} NotPendingFrom(s: System, schedule: seq<Action>, m: nat, n: nat, j: Jti)
    requires m <= n <= |schedule|
    requires !Pending(At(s, schedule, m), j)
    ensures !Pending(At(s, schedule, n), j)
    decreases n
  {
    if m < n {
      NotPendingFrom(s, schedule, m, n - 1, j);
      if Pending(At(s, schedule, n), j) {
        PendingOnlyShrinks(At(s, schedule, n - 1), schedule[n - 1], j);
      }
    }
  }

  // In every interleaving, between two moments at which a record holds an id it holds it throughout.
  lemma OneInterval(s: System, schedule: seq<Action>, a: nat, b: nat, c: nat, u: UserId, d: DeviceId, j: Jti)
    requires FreshWrites(s) && a <= b <= c <= |schedule|
    requires Holds(At(s, schedule, a), u, d, j) && Holds(At(s, schedule, c), u, d, j)
    ensures Holds(At(s, schedule, b), u, d, j) && !Pending(At(s, schedule, b), j)
  {
    FreshAt(s, schedule, a);
    NotPendingFrom(s, schedule, a, b, j);
    if !Holds(At(s, schedule, b), u, d, j) {
      GoneFrom(s, schedule, b, c, u, d, j);
    }
  }

  // ---- Two refreshes with one token ----

  // At step p thread i sends the GET of a refresh and finds its own token current.
  ghost predicate AcceptsAt(s: System, schedule: seq<Action>, p: nat, i: int, token: Claims)
    requires p < |schedule|
  {
    var here := At(s, schedule, p);
    && schedule[p].tid == i && i in here.threads
    && here.threads[i].Get? && here.threads[i].token == token
    && GetRt(here.redis, token.sub, token.deviceId, schedule[p].now).Some?
    && GetRt(here.redis, token.sub, token.deviceId, schedule[p].now).value.tokenId == token.jti
  }

  // At step q thread i sends the SETEX of a refresh-token record.
  ghost predicate StoresAt(s: System, schedule: seq<Action>, q: nat, i: int)
    requires q < |schedule|
  {
    var here := At(s, schedule, q);
    schedule[q].tid == i && i in here.threads && here.threads[i].SetEx?
  }

  // A thread only moves forward.
  function Rank(th: Thread): nat
    decreases th
  {
    match th
    case Get(_, _, _) => 5
    case SetEx(_, _, _) => 3
    case SAdd(_, _) => 1
    case Del(_, _, _) => 2
    case SRem(_, _, _) => 1
    case Exists(_, _, rest) => 6 + Rank(rest)
    case SetBlacklisted(_, _, _, _, rest) => 6 + Rank(rest)
    case SMembers(_) => 2
    case Pipeline(_, _) => 1
    case Finished(_, _) => 0
  }

  lemma NextRank(th: Thread, r: RedisState, now: nat)
    ensures Rank(Next(th, r, now)) < Rank(th) || Next(th, r, now) == th
  {
  }

  lemma {:induction false} ForwardOnly(s: System, schedule: seq<Action>, m: nat, n: nat, i: int)
    requires m <= n <= |schedule| && i in s.threads
    ensures i in At(s, schedule, m).threads && i in At(s, schedule, n).threads
    ensures
      var before, after := At(s, schedule, m).threads[i], At(s, schedule, n).threads[i];
      Rank(after) < Rank(before) || after == before
    decreases n
  {
    if m < n {
      ForwardOnly(s, schedule, m, n - 1, i);
      var here, a := At(s, schedule, n - 1), schedule[n - 1];
      if a.tid in here.threads {
        NextRank(here.threads[a.tid], here.redis, a.now);
      }
      hide Next, Write, Rank;
    } else if m > 0 {
      ForwardOnly(s, schedule, m - 1, n - 1, i);
    }
  }

  // What an accepting GET leaves: the SETEX of the same pair, until that is sent.
  lemma StoreFollowsGet(s: System, schedule: seq<Action>, p: nat, q: nat, i: int, token: Claims)
    requires p < |schedule| && q < |schedule| && i in s.threads
    requires AcceptsAt(s, schedule, p, i, token) && StoresAt(s, schedule, q, i)
    ensures p < q
    ensures At(s, schedule, q).threads[i].u == token.sub && At(s, schedule, q).threads[i].d == token.deviceId
  {
    if q <= p {
      ForwardOnly(s, schedule, q, p, i);
      assert false;
    }
    ForwardOnly(s, schedule, p + 1, q, i);
    assert At(s, schedule, p + 1) == Do(At(s, schedule, p), schedule[p]);
    hide Write;
  }

  // If two refreshes accept the same token, both GETs come before the first of their two SETEX commands:
  // once either successor is stored, no interleaving lets the old token in again.
  lemma BothGetsBeforeFirstStore(s: System, schedule: seq<Action>, p: nat, p': nat, q: nat,
                                 i: int, i': int, token: Claims)
    requires FreshWrites(s) && i in s.threads && i' in s.threads
    requires p < |schedule| && p' < |schedule| && q < |schedule|
    requires AcceptsAt(s, schedule, p, i, token) && AcceptsAt(s, schedule, p', i', token)
    requires StoresAt(s, schedule, q, i)
    ensures p < q && p' < q
  {
    StoreFollowsGet(s, schedule, p, q, i, token);
    if q <= p' {
      var u, d, j := token.sub, token.deviceId, token.jti;
      assert Holds(At(s, schedule, p), u, d, j) && Holds(At(s, schedule, p'), u, d, j);
      OneInterval(s, schedule, p, q, p', u, d, j);
      if q == p' {
        assert false;
      }
      OneInterval(s, schedule, p, q + 1, p', u, d, j);
      var here := At(s, schedule, q);
      assert At(s, schedule, q + 1) == Do(here, schedule[q]);
      WriteRecords(here.threads[i], here.redis, schedule[q].now, (u, d));
      assert false;
    }
  }

  // ---- Exactly when a token is let in a second time ----

  // The acting command rewrites or drops the record of the pair.
  predicate Touches(s: System, a: Action, u: UserId, d: DeviceId) {
    a.tid in s.threads &&
    match s.threads[a.tid]
    case SetEx(v, e, _) => v == u && e == d
    case Del(v, e, _) => v == u && e == d
    case Pipeline(v, ids) => v == u && d in ids
    case _ => false
  }

  function RecordAt(s: System, u: UserId, d: DeviceId): Option<Timed<RtRecord>> {
    if (u, d) in s.redis.rt then Some(s.redis.rt[(u, d)]) else None
  }

  lemma SameRecordSameHold(s: System, s': System, u: UserId, d: DeviceId, j: Jti)
    requires RecordAt(s, u, d) == RecordAt(s', u, d)
    ensures Holds(s, u, d, j) <==> Holds(s', u, d, j)
  {
  }

  lemma UntouchedRecord(s: System, a: Action, u: UserId, d: DeviceId)
    requires !Touches(s, a, u, d)
    ensures RecordAt(s, u, d) == RecordAt(Do(s, a), u, d)
  {
    hide Next;
  }

  lemma TouchEndsHold(s: System, a: Action, u: UserId, d: DeviceId, j: Jti)
    requires FreshWrites(s) && Holds(s, u, d, j) && Touches(s, a, u, d)
    ensures !Holds(Do(s, a), u, d, j)
  {
    hide Next;
    var th := s.threads[a.tid];
    if th.SetEx? {
      assert Writes(th) == Some(th.args.jti);
      assert Pending(s, th.args.jti) && !Pending(s, j);
    }
  }

  lemma HeldIsWritten(s: System, u: UserId, d: DeviceId, j: Jti)
    requires FreshWrites(s) && Holds(s, u, d, j)
    ensures !Pending(s, j)
  {
  }

  lemma HoldStep(s: System, a: Action, u: UserId, d: DeviceId, j: Jti)
    requires FreshWrites(s) && !Pending(s, j)
    ensures Holds(Do(s, a), u, d, j) <==> Holds(s, u, d, j) && !Touches(s, a, u, d)
    ensures Holds(Do(s, a), u, d, j) ==> RecordAt(s, u, d) == RecordAt(Do(s, a), u, d)
  {
    if !Holds(s, u, d, j) {
      GoneStaysGone(s, a, u, d, j);
    } else if Touches(s, a, u, d) {
      TouchEndsHold(s, a, u, d, j);
    } else {
      UntouchedRecord(s, a, u, d);
    }
    hide Do, FreshWrites, Pending, Touches;
  }

  // Nothing touches the record of the pair from step p until before step n.
  predicate Untouched(s: System, schedule: seq<Action>, p: nat, n: nat, u: UserId, d: DeviceId)
    requires n <= |schedule|
  {
    forall k | p <= k < n :: !Touches(At(s, schedule, k), schedule[k], u, d)
  }

  lemma UntouchedGrows(s: System, schedule: seq<Action>, p: nat, n: nat, u: UserId, d: DeviceId)
    requires p <= n < |schedule|
    ensures Untouched(s, schedule, p, n + 1, u, d) <==>
      Untouched(s, schedule, p, n, u, d) && !Touches(At(s, schedule, n), schedule[n], u, d)
  {
    hide At, Touches;
  }

  // In every interleaving a record stays what it is exactly until a SETEX, DEL or pipeline of its pair.
  lemma {:induction false} RecordStaysIff(s: System, schedule: seq<Action>, p: nat, n: nat,
                                          u: UserId, d: DeviceId, j: Jti)
    requires FreshWrites(s) && p <= n <= |schedule| && Holds(At(s, schedule, p), u, d, j)
    ensures Holds(At(s, schedule, n), u, d, j) <==>
      RecordAt(At(s, schedule, n), u, d) == RecordAt(At(s, schedule, p), u, d)
    ensures Holds(At(s, schedule, n), u, d, j) <==> Untouched(s, schedule, p, n, u, d)
    decreases n
  {
    if p < n {
      var m := n - 1;
      FreshAt(s, schedule, p);
      assert !Pending(At(s, schedule, p), j) by { HeldIsWritten(At(s, schedule, p), u, d, j); }
      if RecordAt(At(s, schedule, n), u, d) == RecordAt(At(s, schedule, p), u, d) {
        SameRecordSameHold(At(s, schedule, n), At(s, schedule, p), u, d, j);
      }
      RecordStaysIff(s, schedule, p, m, u, d, j);
      NotPendingFrom(s, schedule, p, m, j);
      FreshAt(s, schedule, m);
      HoldStep(At(s, schedule, m), schedule[m], u, d, j);
      AtStep(s, schedule, m);
      hide At, Do, Untouched, Holds, RecordAt, Pending, FreshWrites;
      UntouchedGrows(s, schedule, p, m, u, d);
    }
  }

  // Once a GET has accepted a token, a later GET with it accepts iff nothing has touched the record in between and
  // the record has not expired: the successor not yet stored, and no logout, revocation or detected reuse come first.
  lemma SecondAcceptIff(s: System, schedule: seq<Action>, p: nat, n: nat, i: int, i': int, token: Claims)
    requires FreshWrites(s) && p <= n < |schedule| && AcceptsAt(s, schedule, p, i, token)
    requires schedule[n].tid == i' && i' in At(s, schedule, n).threads
    requires At(s, schedule, n).threads[i'].Get? && At(s, schedule, n).threads[i'].token == token
    ensures AcceptsAt(s, schedule, n, i', token) <==>
      && Untouched(s, schedule, p, n, token.sub, token.deviceId)
      && schedule[n].now < At(s, schedule, p).redis.rt[(token.sub, token.deviceId)].expiry
  {
    RecordStaysIff(s, schedule, p, n, token.sub, token.deviceId, token.jti);
    hide Untouched, FreshWrites, At;
  }

  // ---- What interleaving does break ----

  const NO_CLIENT := StoredClient(None, None, None, None)

  function Token(): Claims {
    Claims(ISSUER, "u", None, 0, 100, "old", Refresh, "d", None, None)
  }

  function Args(j: Jti): StoreArgs {
    StoreArgs(j, NO_CLIENT, 100 * SECOND, 0)
  }

  function OldRecord(): RedisState {
    RedisState(map[("u", "d") := Timed(RtRecord("old", "u", "d", NO_CLIENT, 0, 100), 100 * SECOND)],
               map["u" := {"d"}], map[])
  }

  function Racing(): System {
    System(OldRecord(),
           map[0 := RefreshProgram(Token(), true, Args("a")), 1 := RefreshProgram(Token(), true, Args("b"))])
  }

  function RaceSchedule(): seq<Action> {
    [Action(0, 1), Action(1, 1), Action(0, 2), Action(0, 2), Action(1, 3), Action(1, 3)]
  }

  lemma RacingIsFresh()
    ensures FreshWrites(Racing())
  {
    assert Writes(Racing().threads[0]) == Some("a") && Writes(Racing().threads[1]) == Some("b");
    assert "a"[0] != "b"[0] && |"old"| == 3;
  }

  lemma BothGetsSucceed()
    ensures AcceptsAt(Racing(), RaceSchedule(), 0, 0, Token()) && AcceptsAt(Racing(), RaceSchedule(), 1, 1, Token())
    ensures At(Racing(), RaceSchedule(), 2).threads ==
      map[0 := SetEx("u", "d", Args("a")), 1 := SetEx("u", "d", Args("b"))]
  {
    var s, schedule := Racing(), RaceSchedule();
    assert At(s, schedule, 0) == s;
    assert At(s, schedule, 1).threads[0] == SetEx("u", "d", Args("a")) && At(s, schedule, 1).redis == s.redis;
  }

  // Two refreshes may both accept one token: their GETs both run before either SETEX, and both finish.
  lemma TwoRefreshesAcceptOneToken()
    ensures FreshWrites(Racing())
    ensures AcceptsAt(Racing(), RaceSchedule(), 0, 0, Token()) && AcceptsAt(Racing(), RaceSchedule(), 1, 1, Token())
    ensures At(Racing(), RaceSchedule(), 6).threads == map[0 := Finished("u", Granted), 1 := Finished("u", Granted)]
  {
    RacingIsFresh();
    BothGetsSucceed();
    hide Write, Racing, AcceptsAt, FreshWrites;
    var s, schedule := Racing(), RaceSchedule();
    assert At(s, schedule, 3).threads == map[0 := SAdd("u", "d"), 1 := SetEx("u", "d", Args("b"))];
    assert At(s, schedule, 4).threads == map[0 := Finished("u", Granted), 1 := SetEx("u", "d", Args("b"))];
    assert At(s, schedule, 5).threads == map[0 := Finished("u", Granted), 1 := SAdd("u", "d")];
  }
}
