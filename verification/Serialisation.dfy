/** Interleaved requests end in the Redis, and with the answers, of whole requests served one after another. */
module Serialisation {
  import opened Base
  import opened Jwt
  import opened TypedRedis
  import opened Protocol
  import opened Runs
  import opened Commands
  import opened Interleaving
  import opened CommandRefinement
  import opened Races
  import opened DeviceSets

  function Times(block: seq<Action>): seq<nat> {
    if block == [] then [] else [block[0].now] + Times(block[1..])
  }

  // In a schedule, an uninterrupted block of one thread's actions is that thread on its own.
  lemma {:induction false} BlockIsAlone(s: System, block: seq<Action>, i: int)
    requires i in s.threads && forall a | a in block :: a.tid == i
    ensures
      var (th, r) := Alone(s.threads[i], s.redis, Times(block));
      After(s, block) == System(r, s.threads[i := th])
    decreases |block|
  {
    if block == [] {
      assert s.threads[i := s.threads[i]] == s.threads;
    } else {
      var a, rest := block[0], block[1..];
      assert a in block && Times(block)[0] == a.now && Times(block)[1..] == Times(rest);
      BlockIsAlone(Do(s, a), rest, i);
      var (th, _) := Alone(Do(s, a).threads[i], Do(s, a).redis, Times(rest));
      assert Do(s, a).threads[i := th] == s.threads[i := th];
    }
  }

  // Threads that do not act do not change.
  lemma {:induction false} Untouched(s: System, schedule: seq<Action>, i: int)
    requires i in s.threads && forall a | a in schedule :: a.tid != i
    ensures i in After(s, schedule).threads && After(s, schedule).threads[i] == s.threads[i]
    decreases |schedule|
  {
    if schedule != [] {
      assert schedule[0] in schedule;
      Untouched(Do(s, schedule[0]), schedule[1..], i);
    }
  }

  // ---- The order in which the requests are served ----

  // Requests by their first command.
  function Order(schedule: seq<Action>): seq<int>
    decreases |schedule|
  {
    if schedule == [] then [] else [schedule[0].tid] + Order(Rest(schedule, schedule[0].tid))
  }

  predicate Acts(schedule: seq<Action>, i: int) {
    exists a | a in schedule :: a.tid == i
  }

  lemma {:induction false} OrderMembers(schedule: seq<Action>)
    ensures forall i :: i in Order(schedule) <==> Acts(schedule, i)
    decreases |schedule|
  {
    if schedule != [] {
      var t := schedule[0].tid;
      Members(schedule, t);
      OrderMembers(Rest(schedule, t));
      assert schedule[0] in schedule;
      forall i ensures i in Order(schedule) <==> Acts(schedule, i) {
        assert i in Order(schedule) <==> i == t || i in Order(Rest(schedule, t));
      }
    }
  }

  // Each request comes once, and none comes ahead of a request that was done before it began.
  lemma {:induction false} OrderKeepsRealTime(schedule: seq<Action>)
    ensures
      var order := Order(schedule);
      forall x, y | 0 <= x < y < |order| :: order[x] != order[y] && !Before(schedule, order[y], order[x])
    decreases |schedule|
  {
    if schedule != [] {
      var t := schedule[0].tid;
      var rest, order := Rest(schedule, t), Order(schedule);
      OrderKeepsRealTime(rest);
      OrderMembers(rest);
      Members(schedule, t);
      forall x, y | 0 <= x < y < |order| ensures order[x] != order[y] && !Before(schedule, order[y], order[x]) {
        assert order[y] == Order(rest)[y - 1] && order[y] in Order(rest);
        var a :| a in rest && a.tid == order[y];
        if x == 0 {
          if Before(schedule, order[y], t) {
            NothingBeforeFirst(schedule, order[y]);
            assert false;
          }
        } else {
          assert order[x] == Order(rest)[x - 1];
          if Before(schedule, order[y], order[x]) {
            RestBefore(schedule, t, order[y], order[x]);
            assert false;
          }
        }
      }
    }
  }

  // ---- Whole requests in that order ----

  predicate AllIn(order: seq<int>, reqs: map<int, Request>) {
    forall k | 0 <= k < |order| :: order[k] in reqs
  }

  ghost function InOrder(cfg: Config, reqs: map<int, Request>, order: seq<int>, r: RedisState): RedisState
    requires AllIn(order, reqs)
    decreases |order|
  {
    if order == [] then r else InOrder(cfg, reqs, order[1..], Served(cfg, reqs[order[0]], r).0)
  }

  // Every request answered as it does when served in that order.
  ghost predicate Answers(cfg: Config, reqs: map<int, Request>, order: seq<int>, r: RedisState,
                          threads: map<int, Thread>)
    requires AllIn(order, reqs)
    decreases |order|
  {
    order != [] ==>
      && order[0] in threads && threads[order[0]].Finished?
      && threads[order[0]].verdict == Served(cfg, reqs[order[0]], r).1
      && Answers(cfg, reqs, order[1..], Served(cfg, reqs[order[0]], r).0, threads)
  }

  // Thread i is request i, about to start and timed as the request says.
  ghost predicate Ready(cfg: Config, reqs: map<int, Request>, s: System, schedule: seq<Action>) {
    forall i | Acts(schedule, i) ::
      && i in reqs && i in s.threads && s.threads[i] == Program(cfg, reqs[i])
      && OnTime(reqs[i], Times(Of(schedule, i)))
  }

  ghost predicate AllFinish(s: System, schedule: seq<Action>) {
    forall i | Acts(schedule, i) :: i in s.threads && s.threads[i].Finished?
  }

  // The first group of a grouped schedule is one request served.
  lemma FirstServed(cfg: Config, reqs: map<int, Request>, s: System, schedule: seq<Action>)
    requires schedule != [] && Ready(cfg, reqs, s, schedule) && AllFinish(After(s, Grouped(schedule)), schedule)
    ensures
      var t := schedule[0].tid;
      var s', rest := After(s, Of(schedule, t)), Rest(schedule, t);
      && t in reqs && t in s.threads
      && s' == System(Served(cfg, reqs[t], s.redis).0,
                      s.threads[t := Finished(Owner(s.threads[t]), Served(cfg, reqs[t], s.redis).1)])
      && After(s, Grouped(schedule)) == After(s', Grouped(rest))
      && t in After(s, Grouped(schedule)).threads && After(s, Grouped(schedule)).threads[t] == s'.threads[t]
  {
    var t := schedule[0].tid;
    var own, rest := Of(schedule, t), Rest(schedule, t);
    assert schedule[0] in schedule && Acts(schedule, t);
    Members(schedule, t);
    GroupedMembers(rest);
    assert Grouped(schedule) == own + Grouped(rest);
    hide Served, Program, Grouped, Of, Rest, After, Alone, OnTime, Times;
    AfterConcat(s, own, Grouped(rest));
    BlockIsAlone(s, own, t);
    Untouched(After(s, own), Grouped(rest), t);
    RequestIsItsCommands(cfg, reqs[t], s.redis, Times(own));
  }

  lemma RestReady(cfg: Config, reqs: map<int, Request>, s: System, s': System, schedule: seq<Action>,
                  t: int, th: Thread)
    requires Ready(cfg, reqs, s, schedule) && t in s.threads && s'.threads == s.threads[t := th]
    ensures Ready(cfg, reqs, s', Rest(schedule, t))
    ensures forall i | Acts(Rest(schedule, t), i) :: Acts(schedule, i)
  {
    Members(schedule, t);
    hide Program, OnTime, Rest, Of;
    forall i | Acts(Rest(schedule, t), i)
      ensures Acts(schedule, i) && i != t && Of(Rest(schedule, t), i) == Of(schedule, i)
    {
      OfParts(schedule, t, i);
    }
  }

  lemma {:induction false} GroupedServes(cfg: Config, reqs: map<int, Request>, s: System, schedule: seq<Action>)
    requires Ready(cfg, reqs, s, schedule) && AllFinish(After(s, Grouped(schedule)), schedule)
    ensures AllIn(Order(schedule), reqs)
    ensures
      var last := After(s, Grouped(schedule));
      && last.redis == InOrder(cfg, reqs, Order(schedule), s.redis)
      && Answers(cfg, reqs, Order(schedule), s.redis, last.threads)
    decreases |schedule|
  {
    OrderMembers(schedule);
    if schedule != [] {
      var t := schedule[0].tid;
      var s', rest := After(s, Of(schedule, t)), Rest(schedule, t);
      FirstServed(cfg, reqs, s, schedule);
      RestReady(cfg, reqs, s, s', schedule, t, s'.threads[t]);
      assert Order(schedule)[0] == t && Order(schedule)[1..] == Order(rest);
      hide Served, Program, Grouped, Of, Rest, After, Order, Ready;
      GroupedServes(cfg, reqs, s', rest);
    }
  }

  // ---- The theorem ----

  // Every request of reqs about to start.
  ghost function Starting(cfg: Config, reqs: map<int, Request>, r: RedisState): System {
    System(r, map i | i in reqs :: Program(cfg, reqs[i]))
  }

  lemma StartingSeparate(cfg: Config, signed: set<Claims>, reqs: map<int, Request>, r: RedisState)
    requires UniqueIds(signed) && forall i | i in reqs :: reqs[i].signed <= signed
    ensures Separate(Starting(cfg, reqs, r))
  {
    var s := Starting(cfg, reqs, r);
    hide Program, UniqueIds;
    forall i, k | i in reqs && k in reqs
      ensures OneOwner(s.threads[i])
      ensures Owner(s.threads[i]) != Owner(s.threads[k]) ==> Ids(s.threads[i]) !! Ids(s.threads[k])
    {
      ProgramsAreSeparate(cfg, signed, reqs[i], reqs[k]);
    }
    forall i | i in reqs ensures OneOwner(s.threads[i]) {
      ProgramsAreSeparate(cfg, signed, reqs[i], reqs[i]);
    }
  }

  // The order has every request that acted, once, and puts none ahead of one that was done before it began.
  ghost predicate IsOrderOf(order: seq<int>, schedule: seq<Action>) {
    && (forall i :: i in order <==> Acts(schedule, i))
    && (forall x, y | 0 <= x < y < |order| :: order[x] != order[y] && !Before(schedule, order[y], order[x]))
  }

  lemma OrderIsOrder(schedule: seq<Action>)
    ensures IsOrderOf(Order(schedule), schedule)
  {
    OrderMembers(schedule);
    OrderKeepsRealTime(schedule);
    hide Order, Acts, Before;
  }

  // Requests whose Redis commands interleave, no two of one user overlapping, each run to its end: there is an order
  // of the requests, one that respects real time, such that Redis ends, and every request answers, as if each had
  // been one whole step, taken in that order.
  lemma InterleavedRequestsAreServed(cfg: Config, signed: set<Claims>, reqs: map<int, Request>, r: RedisState,
                                     schedule: seq<Action>)
    requires UniqueIds(signed) && forall i | i in reqs :: reqs[i].signed <= signed
    requires
      var s := Starting(cfg, reqs, r);
      && Known(Owners(s), schedule) && NoOverlap(Owners(s), schedule)
      && (forall i | i in reqs :: OnTime(reqs[i], Times(Of(schedule, i))))
      && AllFinish(After(s, schedule), schedule)
    ensures
      var last := After(Starting(cfg, reqs, r), schedule);
      exists order: seq<int> ::
        && IsOrderOf(order, schedule) && AllIn(order, reqs)
        && last.redis == InOrder(cfg, reqs, order, r)
        && Answers(cfg, reqs, order, r, last.threads)
  {
    var s, order := Starting(cfg, reqs, r), Order(schedule);
    StartingSeparate(cfg, signed, reqs, r);
    StartingReady(cfg, reqs, r, schedule);
    GroupedSameState(s, schedule);
    GroupedServes(cfg, reqs, s, schedule);
    OrderIsOrder(schedule);
    hide *;
  }

  lemma StartingReady(cfg: Config, reqs: map<int, Request>, r: RedisState, schedule: seq<Action>)
    requires Known(Owners(Starting(cfg, reqs, r)), schedule)
    requires forall i | i in reqs :: OnTime(reqs[i], Times(Of(schedule, i)))
    ensures Ready(cfg, reqs, Starting(cfg, reqs, r), schedule) && Starting(cfg, reqs, r).redis == r
  {
    hide Program, OnTime, Owner;
  }

  // ---- Device sets ----

  lemma {:induction false} AfterIsAt(s: System, schedule: seq<Action>, n: nat)
    requires n <= |schedule|
    ensures After(s, schedule[..n]) == At(s, schedule, n)
  {
    if n > 0 {
      AfterIsAt(s, schedule, n - 1);
      assert schedule[..n] == schedule[..n - 1] + [schedule[n - 1]];
      AfterConcat(s, schedule[..n - 1], [schedule[n - 1]]);
      hide Do;
    }
  }

  lemma ProgramStarts(cfg: Config, req: Request)
    ensures AtStart(Program(cfg, req)) && OneOwner(Program(cfg, req))
  {
    ProgramFacts(cfg, req);
    if req.call.Protected() {
      var token, t := req.call.token, req.t;
      assert AtStart(Revoking(token, LogoutRecord(token, t.revoke), t.stamp, Del(token.sub, token.deviceId, Granted)));
      assert AtStart(Revoking(token, LogoutAllRecord(token, t.revoke), t.stamp, SMembers(token.sub)));
      hide Revoking;
    }
    hide TotalSeconds, RowsAllow, TryLogin, Served;
  }

  // Once interleaved requests, no two of one user overlapping, have all finished, the device sets list every record.
  lemma InterleavedRequestsStayListed(cfg: Config, reqs: map<int, Request>, r: RedisState, schedule: seq<Action>)
    requires forall p | p in r.rt :: Listed(r, p)
    requires
      var s := Starting(cfg, reqs, r);
      && Known(Owners(s), schedule) && NoOverlap(Owners(s), schedule)
      && forall i | i in After(s, schedule).threads :: After(s, schedule).threads[i].Finished?
    ensures
      var last := After(Starting(cfg, reqs, r), schedule);
      forall p | p in last.redis.rt :: Listed(last.redis, p)
  {
    var s, n := Starting(cfg, reqs, r), |schedule|;
    forall i | i in s.threads ensures AtStart(s.threads[i]) && OneOwner(s.threads[i]) {
      ProgramStarts(cfg, reqs[i]);
    }
    assert Covered(s) && schedule[..n] == schedule;
    hide Program, AtStart, Listed, OneOwner, Known, NoOverlap, Do;
    NoOverlapKeepsCovered(s, schedule, n);
    AfterIsAt(s, schedule, n);
    assert Covered(At(s, schedule, n));
    ListedWhenQuiet(At(s, schedule, n));
  }
}
