/**
 The device set when requests interleave. A record outside the set of its user is one that logout_all will miss:
 which single commands bring that about, which races are behind them, and why requests of one user
 that do not overlap never do.
 */
module DeviceSets {
  import opened Base
  import opened Jwt
  import opened TypedRedis
  import opened Commands
  import opened Interleaving
  import opened Races

  // Some thread has stored the record of the pair and is about to add its device to the set.
  ghost predicate Adding(s: System, p: (UserId, DeviceId)) {
    exists i :: i in s.threads && s.threads[i] == SAdd(p.0, p.1)
  }

  predicate Listed(r: RedisState, p: (UserId, DeviceId)) {
    p.1 in Indexed(r, p.0)
  }

  // Every record is in its user's device set, or about to be.
  ghost predicate Covered(s: System) {
    forall p | p in s.redis.rt :: Listed(s.redis, p) || Adding(s, p)
  }

  // The acting command takes out of the set a device whose record stays, with nobody about to add it:
  // the SREM of a deletion, or a pipeline that does not know of the record.
  ghost predicate Orphans(s: System, a: Action) {
    a.tid in s.threads &&
    match s.threads[a.tid]
    case SRem(u, d, _) => (u, d) in s.redis.rt && !Adding(s, (u, d))
    case Pipeline(u, ids) => exists p :: p in s.redis.rt && p.0 == u && p.1 !in ids && !Adding(s, p)
    case _ => false
  }

  // ---- The exact step ----

  // Only its own SADD ends a thread's promise to add a device.
  lemma AddingAfter(s: System, a: Action, p: (UserId, DeviceId))
    ensures
      var acting := a.tid in s.threads && s.threads[a.tid] == SAdd(p.0, p.1);
      && (Adding(s, p) && !acting ==> Adding(Do(s, a), p))
      && (Adding(Do(s, a), p) && !Adding(s, p) ==>
            a.tid in s.threads && Next(s.threads[a.tid], s.redis, a.now) == SAdd(p.0, p.1))
  {
    var s' := Do(s, a);
    hide Next, Write;
    if i :| i in s.threads && s.threads[i] == SAdd(p.0, p.1) {
      assert i != a.tid ==> s'.threads[i] == SAdd(p.0, p.1);
    }
    if i :| i in s'.threads && s'.threads[i] == SAdd(p.0, p.1) {
      assert i != a.tid ==> s.threads[i] == SAdd(p.0, p.1);
    }
  }

  lemma NoOrphanKeepsCovered(s: System, a: Action)
    requires Covered(s) && !Orphans(s, a) && a.tid in s.threads
    ensures Covered(Do(s, a))
  {
    var th, s' := s.threads[a.tid], Do(s, a);
    forall p | p in s'.redis.rt ensures Listed(s'.redis, p) || Adding(s', p) {
      AddingAfter(s, a, p);
      WriteRecords(th, s.redis, a.now, p);
      if th.SetEx? && p == (th.u, th.d) {
        assert s'.threads[a.tid] == SAdd(p.0, p.1);
      } else if Adding(s, p) {
        ListedAfter(th, s.redis, a.now, p);
      } else {
        assert Listed(s.redis, p);
        ListedAfter(th, s.redis, a.now, p);
        KeptByPipeline(th, s.redis, a.now, p);
      }
      hide Write, Next, Adding;
    }
  }

  // What one command does to the membership of one pair.
  lemma ListedAfter(th: Thread, r: RedisState, now: nat, p: (UserId, DeviceId))
    ensures Listed(Write(th, r, now), p) <==> match th
      case SAdd(u, d) => p == (u, d) || Listed(r, p)
      case SRem(u, d, _) => p != (u, d) && Listed(r, p)
      case Pipeline(u, _) => p.0 != u && Listed(r, p)
      case _ => Listed(r, p)
  {
  }

  lemma KeptByPipeline(th: Thread, r: RedisState, now: nat, p: (UserId, DeviceId))
    ensures th.Pipeline? && p.0 == th.u ==> (p in Write(th, r, now).rt <==> p in r.rt && p.1 !in th.ids)
  {
  }

  lemma OrphanUncovers(s: System, a: Action)
    requires Orphans(s, a)
    ensures !Covered(Do(s, a))
  {
    var th, s' := s.threads[a.tid], Do(s, a);
    var p :| p in s.redis.rt && !Adding(s, p) && p.0 == th.u && (if th.SRem? then p.1 == th.d else p.1 !in th.ids);
    AddingAfter(s, a, p);
    ListedAfter(th, s.redis, a.now, p);
    KeptByPipeline(th, s.redis, a.now, p);
    assert th.SRem? ==> s'.redis.rt == s.redis.rt;
    hide Listed, Adding;
    assert p in s'.redis.rt && !Listed(s'.redis, p) && !Adding(s', p);
  }

  // Exactly the orphaning commands leave a record that is neither in the device set nor about to be.
  lemma CoveredStep(s: System, a: Action)
    requires Covered(s)
    ensures Covered(Do(s, a)) <==> !Orphans(s, a)
  {
    if Orphans(s, a) {
      OrphanUncovers(s, a);
    } else if a.tid in s.threads {
      NoOrphanKeepsCovered(s, a);
    }
    hide Do, Covered, Orphans;
  }

  ghost predicate CoveredUntil(s: System, schedule: seq<Action>, n: nat)
    requires n <= |schedule|
  {
    forall k | 0 <= k <= n :: Covered(At(s, schedule, k))
  }

  ghost predicate NoOrphansUntil(s: System, schedule: seq<Action>, n: nat)
    requires n <= |schedule|
  {
    forall k | 0 <= k < n :: !Orphans(At(s, schedule, k), schedule[k])
  }

  lemma UntilGrows(s: System, schedule: seq<Action>, n: nat)
    requires n < |schedule|
    ensures CoveredUntil(s, schedule, n + 1) <==> CoveredUntil(s, schedule, n) && Covered(At(s, schedule, n + 1))
    ensures NoOrphansUntil(s, schedule, n + 1) <==>
      NoOrphansUntil(s, schedule, n) && !Orphans(At(s, schedule, n), schedule[n])
  {
    hide At, Covered, Orphans;
  }

  // In every interleaving the records stay covered exactly as long as no command orphans one.
  lemma {:induction false} CoveredUntilIff(s: System, schedule: seq<Action>, n: nat)
    requires Covered(s) && n <= |schedule|
    ensures CoveredUntil(s, schedule, n) <==> NoOrphansUntil(s, schedule, n)
  {
    if n > 0 {
      var m := n - 1;
      CoveredUntilIff(s, schedule, m);
      UntilGrows(s, schedule, m);
      AtStep(s, schedule, m);
      if CoveredUntil(s, schedule, m) {
        assert Covered(At(s, schedule, m));
        CoveredStep(At(s, schedule, m), schedule[m]);
      }
      hide Covered, Orphans, Do, At, NoOrphansUntil;
    }
  }

  // Once no SADD is outstanding, covered means that the device sets list every record.
  lemma ListedWhenQuiet(s: System)
    requires forall i | i in s.threads :: !s.threads[i].SAdd?
    ensures Covered(s) <==> forall p | p in s.redis.rt :: Listed(s.redis, p)
  {
    hide Listed;
  }

  // ---- The races behind it ----

  // Not between the two commands of a token-store operation.
  predicate AtStart(th: Thread)
    decreases th
  {
    match th
    case SAdd(_, _) => false
    case SRem(_, _, _) => false
    case Pipeline(_, _) => false
    case Exists(_, _, rest) => AtStart(rest)
    case SetBlacklisted(_, _, _, _, rest) => AtStart(rest)
    case _ => true
  }

  predicate Staged(th: Thread) {
    th.Exists? || th.SetBlacklisted? ==> AtStart(th.rest)
  }

  // The command before a SREM or a pipeline.
  predicate FirstHalf(th: Thread, r: RedisState, second: Thread) {
    match second
    case SRem(u, d, verdict) => th == Del(u, d, verdict)
    case Pipeline(u, ids) => th == SMembers(u) && ids == Indexed(r, u)
    case _ => false
  }

  lemma NextStaged(th: Thread, r: RedisState, now: nat)
    requires Staged(th)
    ensures Staged(Next(th, r, now))
    ensures Next(th, r, now).SRem? || Next(th, r, now).Pipeline? ==> FirstHalf(th, r, Next(th, r, now))
  {
  }

  lemma {:induction false} StagedAt(s: System, schedule: seq<Action>, n: nat, i: int)
    requires n <= |schedule| && i in s.threads && AtStart(s.threads[i])
    ensures i in At(s, schedule, n).threads && Staged(At(s, schedule, n).threads[i])
  {
    if n > 0 {
      StagedAt(s, schedule, n - 1, i);
      var here, a := At(s, schedule, n - 1), schedule[n - 1];
      NextStaged(here.threads[i], here.redis, a.now);
      hide Next, Write, Staged, AtStart;
    }
  }

  // A thread that is about to send the second command of a deletion sent the first one earlier.
  lemma {:induction false} FirstHalfSent(s: System, schedule: seq<Action>, n: nat, i: int) returns (m: nat)
    requires n <= |schedule| && i in s.threads && AtStart(s.threads[i]) && i in At(s, schedule, n).threads
    requires At(s, schedule, n).threads[i].SRem? || At(s, schedule, n).threads[i].Pipeline?
    ensures m < n && schedule[m].tid == i && i in At(s, schedule, m).threads
    ensures FirstHalf(At(s, schedule, m).threads[i], At(s, schedule, m).redis, At(s, schedule, n).threads[i])
    decreases n
  {
    StagedAt(s, schedule, n - 1, i);
    AtStep(s, schedule, n - 1);
    var here, a := At(s, schedule, n - 1), schedule[n - 1];
    NextStaged(here.threads[i], here.redis, a.now);
    hide Next, Write, Staged, AtStart, FirstHalf;
    if a.tid == i {
      m := n - 1;
    } else {
      m := FirstHalfSent(s, schedule, n - 1, i);
    }
  }

  // The thread that acts at step k, about to send its command.
  function Sender(s: System, schedule: seq<Action>, k: nat): Option<Thread>
    requires k < |schedule|
  {
    var here := At(s, schedule, k);
    if schedule[k].tid in here.threads then Some(here.threads[schedule[k].tid]) else None
  }

  // A record that was not there was stored by a SETEX in between.
  lemma {:induction false} RecordAppears(s: System, schedule: seq<Action>, m: nat, n: nat, p: (UserId, DeviceId))
    returns (k: nat, th: Thread)
    requires m <= n <= |schedule| && p !in At(s, schedule, m).redis.rt && p in At(s, schedule, n).redis.rt
    ensures m <= k < n && Sender(s, schedule, k) == Some(th) && th.SetEx? && p == (th.u, th.d)
    decreases n
  {
    var here, a := At(s, schedule, n - 1), schedule[n - 1];
    AtStep(s, schedule, n - 1);
    if p in here.redis.rt {
      k, th := RecordAppears(s, schedule, m, n - 1, p);
    } else {
      k, th := n - 1, here.threads[a.tid];
      WriteRecords(th, here.redis, a.now, p);
    }
    hide Next, Write;
  }

  // A thread that was about to add a device, and no longer is, added it in between.
  lemma {:induction false} AdderActs(s: System, schedule: seq<Action>, m: nat, n: nat, i: int, p: (UserId, DeviceId))
    returns (k: nat)
    requires m <= n <= |schedule| && i in At(s, schedule, m).threads && At(s, schedule, m).threads[i] == SAdd(p.0, p.1)
    requires !Adding(At(s, schedule, n), p)
    ensures m <= k < n && schedule[k].tid == i && Sender(s, schedule, k) == Some(SAdd(p.0, p.1))
    decreases n - m
  {
    assert m < n;
    AtStep(s, schedule, m);
    if schedule[m].tid == i {
      k := m;
    } else {
      hide Next, Write;
      k := AdderActs(s, schedule, m + 1, n, i, p);
    }
  }

  // A thread that has begun to delete no longer stores.
  lemma DeleterStoresNot(s: System, schedule: seq<Action>, m: nat, k: nat, i: int)
    requires m < k < |schedule| && i in s.threads && i in At(s, schedule, m).threads
    requires At(s, schedule, m).threads[i].Del? || At(s, schedule, m).threads[i].SMembers?
    ensures i in At(s, schedule, k).threads && !At(s, schedule, k).threads[i].SetEx?
  {
    ForwardOnly(s, schedule, m, k, i);
    hide At;
  }

  // Steps m and n are the two commands of a deletion of u by one thread; at step k, in between,
  // another thread stores a record of u, or adds its device.
  ghost predicate Raced(s: System, schedule: seq<Action>, m: nat, k: nat, n: nat, u: UserId)
    requires n < |schedule|
  {
    && m < k < n && schedule[m].tid == schedule[n].tid && schedule[k].tid != schedule[n].tid
    && (exists first :: Sender(s, schedule, m) == Some(first) && (first.Del? || first.SMembers?) && first.u == u)
    && (exists store :: Sender(s, schedule, k) == Some(store) && (store.SetEx? || store.SAdd?) && store.u == u)
    && (exists last :: Sender(s, schedule, n) == Some(last) && (last.SRem? || last.Pipeline?) && last.u == u)
  }

  lemma {:induction false} KeysAt(s: System, schedule: seq<Action>, n: nat)
    requires n <= |schedule|
    ensures At(s, schedule, n).threads.Keys == s.threads.Keys
  {
    if n > 0 {
      KeysAt(s, schedule, n - 1);
      hide Next, Write;
    }
  }

  // A pipeline misses only records that were about to be listed when SMEMBERS ran, and a SREM none that were there.
  lemma FirstHalfCovers(s: System, a: Action, second: Thread, p: (UserId, DeviceId))
    requires a.tid in s.threads && FirstHalf(s.threads[a.tid], s.redis, second) && Covered(s)
    requires p in Do(s, a).redis.rt && p.0 == second.u
    requires if second.SRem? then p.1 == second.d else p.1 !in second.ids
    ensures second.Pipeline? && Adding(s, p)
  {
    hide Adding;
  }

  // The record that is orphaned, and the command that does it.
  lemma OrphanedRecord(s: System, a: Action) returns (th: Thread, p: (UserId, DeviceId))
    requires Orphans(s, a)
    ensures a.tid in s.threads && s.threads[a.tid] == th && (th.SRem? || th.Pipeline?)
    ensures p in s.redis.rt && !Adding(s, p) && p.0 == th.u && if th.SRem? then p.1 == th.d else p.1 !in th.ids
  {
    th := s.threads[a.tid];
    p :| p in s.redis.rt && !Adding(s, p) && p.0 == th.u && (if th.SRem? then p.1 == th.d else p.1 !in th.ids);
  }

  // The store that the deletion begun at step m did not see.
  lemma StoreBetween(s: System, schedule: seq<Action>, m: nat, n: nat, th: Thread, p: (UserId, DeviceId))
    returns (k: nat, store: Thread)
    requires m < n < |schedule| && Covered(At(s, schedule, m))
    requires
      var past := At(s, schedule, m);
      && schedule[m].tid in s.threads && schedule[m].tid in past.threads
      && FirstHalf(past.threads[schedule[m].tid], past.redis, th)
    requires p in At(s, schedule, n).redis.rt && !Adding(At(s, schedule, n), p)
    requires p.0 == th.u && if th.SRem? then p.1 == th.d else p.1 !in th.ids
    ensures m < k < n && schedule[k].tid != schedule[m].tid
    ensures Sender(s, schedule, k) == Some(store) && (store.SetEx? || store.SAdd?) && store.u == th.u
  {
    var past := At(s, schedule, m);
    AtStep(s, schedule, m);
    if p !in At(s, schedule, m + 1).redis.rt {
      k, store := RecordAppears(s, schedule, m + 1, n, p);
      DeleterStoresNot(s, schedule, m, k, schedule[m].tid);
    } else {
      FirstHalfCovers(past, schedule[m], th, p);
      var x :| x in past.threads && past.threads[x] == SAdd(p.0, p.1);
      k := AdderActs(s, schedule, m, n, x, p);
      store := SAdd(p.0, p.1);
    }
    hide At, Covered, Do;
  }

  // Whenever a command orphans a record, a store of the same user by another thread came in between
  // the two commands of the deletion.
  lemma OrphanNeedsRace(s: System, schedule: seq<Action>, n: nat) returns (m: nat, k: nat, u: UserId)
    requires n < |schedule| && (forall i | i in s.threads :: AtStart(s.threads[i]))
    requires CoveredUntil(s, schedule, n) && Orphans(At(s, schedule, n), schedule[n])
    ensures Raced(s, schedule, m, k, n, u)
  {
    var th, p := OrphanedRecord(At(s, schedule, n), schedule[n]);
    u := th.u;
    KeysAt(s, schedule, n);
    m := FirstHalfSent(s, schedule, n, schedule[n].tid);
    var store;
    k, store := StoreBetween(s, schedule, m, n, th, p);
    hide At, Covered, Adding, Orphans;
  }

  // ---- Requests of one user that do not overlap ----

  lemma {:induction false} OwnersAt(s: System, schedule: seq<Action>, n: nat)
    requires Owned(s) && n <= |schedule|
    ensures Owned(At(s, schedule, n)) && Owners(At(s, schedule, n)) == Owners(s)
  {
    if n > 0 {
      OwnersAt(s, schedule, n - 1);
      DoKeepsOwners(At(s, schedule, n - 1), schedule[n - 1]);
      hide Do, Owned, Owners;
    }
  }

  lemma SenderOwns(s: System, schedule: seq<Action>, k: nat)
    requires Owned(s) && k < |schedule| && Sender(s, schedule, k).Some?
    ensures schedule[k].tid in Owners(s) && Owners(s)[schedule[k].tid] == Owner(Sender(s, schedule, k).value)
  {
    OwnersAt(s, schedule, k);
    hide At, Owned;
  }

  lemma RaceIsOverlap(s: System, schedule: seq<Action>, m: nat, k: nat, n: nat, u: UserId)
    requires Owned(s) && Known(Owners(s), schedule) && n < |schedule| && Raced(s, schedule, m, k, n, u)
    ensures !NoOverlap(Owners(s), schedule)
  {
    SenderOwns(s, schedule, k);
    SenderOwns(s, schedule, n);
    hide Sender, Owners, Owned;
  }

  // Whole requests of which no two of one user overlap never orphan a record.
  lemma {:induction false} NoOverlapKeepsCovered(s: System, schedule: seq<Action>, n: nat)
    requires Owned(s) && (forall i | i in s.threads :: AtStart(s.threads[i])) && Covered(s)
    requires Known(Owners(s), schedule) && NoOverlap(Owners(s), schedule) && n <= |schedule|
    ensures CoveredUntil(s, schedule, n)
  {
    if n > 0 {
      var m := n - 1;
      NoOverlapKeepsCovered(s, schedule, m);
      CoveredUntilIff(s, schedule, m);
      UntilGrows(s, schedule, m);
      if Orphans(At(s, schedule, m), schedule[m]) {
        var first, store, u := OrphanNeedsRace(s, schedule, m);
        RaceIsOverlap(s, schedule, first, store, m, u);
      }
      hide Owned, Known, NoOverlap, Owners, Orphans, AtStart;
    }
    CoveredUntilIff(s, schedule, n);
  }

  // ---- A race that leaves a record unlisted ----

  function Login(): Thread {
    LoginProgram("u", "d", Args("new"))
  }

  // From another device of the user.
  function ForceOut(): Thread {
    ForceLogoutProgram(Claims(ISSUER, "u", Some(AUDIENCE), 0, 100, "at", Access, "e", Some(""), Some("")), "d")
  }

  // A login's SETEX and SADD may fall between the DEL and the SREM of a forced logout from another device:
  // the record lives on outside the device set, where logout_all will not find it.
  lemma LiveOutsideIndex()
    ensures
      var s := System(EMPTY, map[0 := Login(), 1 := ForceOut()]);
      var schedule := [Action(1, 1), Action(1, 1), Action(0, 1), Action(0, 1), Action(1, 2)];
      var last := At(s, schedule, 5);
      && AtStart(Login()) && AtStart(ForceOut()) && Owner(Login()) == Owner(ForceOut()) && Covered(s)
      && last.threads == map[0 := Finished("u", Granted), 1 := Finished("u", Granted)]
      && GetRt(last.redis, "u", "d", 3).Some? && !Listed(last.redis, ("u", "d"))
  {
    var s := System(EMPTY, map[0 := Login(), 1 := ForceOut()]);
    var schedule := [Action(1, 1), Action(1, 1), Action(0, 1), Action(0, 1), Action(1, 2)];
    assert At(s, schedule, 0) == s;
    assert At(s, schedule, 1) == System(EMPTY, map[0 := Login(), 1 := Del("u", "d", Granted)]);
    assert At(s, schedule, 2).threads == map[0 := SetEx("u", "d", Args("new")), 1 := SRem("u", "d", Granted)];
    assert At(s, schedule, 3).threads == map[0 := SAdd("u", "d"), 1 := SRem("u", "d", Granted)];
    assert At(s, schedule, 4).threads == map[0 := Finished("u", Granted), 1 := SRem("u", "d", Granted)];
  }
}
