/** Interleaved requests: what survives when commands of different requests mix, and what does not. */
module Interleaving {
  import opened Base
  import opened TypedRedis
  import opened Commands

  datatype System = System(redis: RedisState, threads: map<int, Thread>)

  // Thread tid sends its next command at an instant of its own.
  datatype Action = Action(tid: int, now: nat)

  function Do(s: System, a: Action): System {
    if a.tid !in s.threads then s
    else
      var th := s.threads[a.tid];
      System(Write(th, s.redis, a.now), s.threads[a.tid := Next(th, s.redis, a.now)])
  }

  function After(s: System, schedule: seq<Action>): System
    decreases |schedule|
  {
    if schedule == [] then s else After(Do(s, schedule[0]), schedule[1..])
  }

  // ---- Which part of Redis a thread can touch ----

  // The access-token ids a thread tests or blacklists.
  function Ids(th: Thread): set<Jti>
    decreases th
  {
    match th
    case Exists(_, jti, rest) => {jti} + Ids(rest)
    case SetBlacklisted(_, jti, _, _, rest) => {jti} + Ids(rest)
    case _ => {}
  }

  // A continuation belongs to the user of its thread.
  predicate OneOwner(th: Thread)
    decreases th
  {
    match th
    case Exists(u, _, rest) => Owner(rest) == u && OneOwner(rest)
    case SetBlacklisted(u, _, _, _, rest) => Owner(rest) == u && OneOwner(rest)
    case _ => true
  }

  predicate Owned(s: System) {
    forall i | i in s.threads :: OneOwner(s.threads[i])
  }

  // Threads of different users hold different access tokens. Unique token ids give this.
  ghost predicate Separate(s: System) {
    && Owned(s)
    && (forall i, j | i in s.threads && j in s.threads && Owner(s.threads[i]) != Owner(s.threads[j]) ::
          Ids(s.threads[i]) !! Ids(s.threads[j]))
  }

  // r and r' agree on everything that threads of u holding these token ids can see.
  ghost predicate SameFor(u: UserId, ids: set<Jti>, r: RedisState, r': RedisState) {
    && (forall p: (UserId, DeviceId) | p.0 == u :: SameAt(r.rt, r'.rt, p))
    && SameAt(r.index, r'.index, u)
    && (forall j | j in ids :: SameAt(r.blacklist, r'.blacklist, j))
  }

  predicate SameAt<K, V(==)>(m: map<K, V>, m': map<K, V>, k: K) {
    (k in m <==> k in m') && (k in m ==> m[k] == m'[k])
  }

  lemma WriteSpares(th: Thread, r: RedisState, now: nat, v: UserId, ids: set<Jti>)
    requires v != Owner(th) && ids !! Ids(th)
    ensures SameFor(v, ids, r, Write(th, r, now))
  {
  }

  lemma WriteLocal(th: Thread, r: RedisState, r': RedisState, now: nat)
    requires SameFor(Owner(th), Ids(th), r, r')
    ensures SameFor(Owner(th), Ids(th), Write(th, r, now), Write(th, r', now))
  {
    if th.SetEx? {
      assert SameAt(r.index, r'.index, th.u);
    }
  }

  lemma NextLocal(th: Thread, r: RedisState, r': RedisState, now: nat)
    requires SameFor(Owner(th), Ids(th), r, r')
    ensures Next(th, r, now) == Next(th, r', now)
  {
    if th.Get? {
      assert SameAt(r.rt, r'.rt, (th.token.sub, th.token.deviceId));
    }
  }

  // What a's user sees is the same in either order, because b writes nothing that user sees.
  lemma SameForOwner(a: Thread, b: Thread, r: RedisState, t: nat, t': nat)
    requires Owner(a) != Owner(b) && Ids(a) !! Ids(b)
    ensures SameFor(Owner(a), Ids(a), Write(b, Write(a, r, t), t'), Write(a, Write(b, r, t'), t))
  {
    hide Write;
    WriteSpares(b, Write(a, r, t), t', Owner(a), Ids(a));
    WriteSpares(b, r, t', Owner(a), Ids(a));
    WriteLocal(a, r, Write(b, r, t'), t);
  }

  lemma WritesCommute(a: Thread, b: Thread, r: RedisState, t: nat, t': nat)
    requires Owner(a) != Owner(b) && Ids(a) !! Ids(b)
    ensures Write(b, Write(a, r, t), t') == Write(a, Write(b, r, t'), t)
  {
    hide Write;
    var ab, ba := Write(b, Write(a, r, t), t'), Write(a, Write(b, r, t'), t);
    forall v ensures SameFor(v, {}, ab, ba) {
      if v == Owner(a) {
        SameForOwner(a, b, r, t, t');
      } else if v == Owner(b) {
        SameForOwner(b, a, r, t', t);
      } else {
        WriteSpares(a, r, t, v, {});
        WriteSpares(b, r, t', v, {});
        WriteSpares(b, Write(a, r, t), t', v, {});
        WriteSpares(a, Write(b, r, t'), t, v, {});
      }
    }
    forall j ensures SameAt(ab.blacklist, ba.blacklist, j) {
      if j in Ids(a) {
        SameForOwner(a, b, r, t, t');
      } else if j in Ids(b) {
        SameForOwner(b, a, r, t', t);
      } else {
        BlacklistSpared(a, r, t, j);
        BlacklistSpared(b, r, t', j);
        BlacklistSpared(b, Write(a, r, t), t', j);
        BlacklistSpared(a, Write(b, r, t'), t, j);
      }
    }
    AllSame(ab, ba);
  }

  lemma AllSame(r: RedisState, r': RedisState)
    requires forall v :: SameFor(v, {}, r, r')
    requires forall j :: SameAt(r.blacklist, r'.blacklist, j)
    ensures r == r'
  {
    forall p: (UserId, DeviceId) ensures SameAt(r.rt, r'.rt, p) {
      assert SameFor(p.0, {}, r, r');
    }
    SameMaps(r.rt, r'.rt);
    forall v: UserId ensures SameAt(r.index, r'.index, v) {
      assert SameFor(v, {}, r, r');
    }
    SameMaps(r.index, r'.index);
    SameMaps(r.blacklist, r'.blacklist);
  }

  lemma SameMaps<K(!new), V>(m: map<K, V>, m': map<K, V>)
    requires forall k :: SameAt(m, m', k)
    ensures m == m'
  {
    forall k: K ensures (k in m <==> k in m') && (k in m ==> m[k] == m'[k]) {
      assert SameAt(m, m', k);
    }
  }

  lemma BlacklistSpared(th: Thread, r: RedisState, now: nat, j: Jti)
    requires j !in Ids(th)
    ensures SameAt(r.blacklist, Write(th, r, now).blacklist, j)
  {
  }

  // ---- Steps of different users commute ----

  lemma StepKeepsOwner(th: Thread, r: RedisState, now: nat)
    requires OneOwner(th)
    ensures OneOwner(Next(th, r, now)) && Owner(Next(th, r, now)) == Owner(th) && Ids(Next(th, r, now)) <= Ids(th)
  {
  }

  lemma DoKeepsOwners(s: System, a: Action)
    requires Owned(s)
    ensures Owned(Do(s, a)) && Do(s, a).threads.Keys == s.threads.Keys
    ensures Owners(Do(s, a)) == Owners(s)
  {
    if a.tid in s.threads {
      StepKeepsOwner(s.threads[a.tid], s.redis, a.now);
    }
    hide Next, Write, OneOwner;
  }

  lemma DoKeepsSeparate(s: System, a: Action)
    requires Separate(s)
    ensures Separate(Do(s, a)) && Do(s, a).threads.Keys == s.threads.Keys
    ensures Owners(Do(s, a)) == Owners(s)
  {
    DoKeepsOwners(s, a);
    if a.tid in s.threads {
      StepKeepsOwner(s.threads[a.tid], s.redis, a.now);
    }
    hide Next, Write;
  }

  lemma Commute(s: System, a: Action, b: Action)
    requires Separate(s) && a.tid in s.threads && b.tid in s.threads
    requires Owner(s.threads[a.tid]) != Owner(s.threads[b.tid])
    ensures Do(Do(s, a), b) == Do(Do(s, b), a)
  {
    var x, y := s.threads[a.tid], s.threads[b.tid];
    assert Ids(x) !! Ids(y);
    WritesCommute(x, y, s.redis, a.now, b.now);
    WriteSpares(y, s.redis, b.now, Owner(x), Ids(x));
    NextLocal(x, s.redis, Write(y, s.redis, b.now), a.now);
    WriteSpares(x, s.redis, a.now, Owner(y), Ids(y));
    NextLocal(y, s.redis, Write(x, s.redis, a.now), b.now);
    hide Next, Write;
    assert Do(Do(s, a), b).threads == Do(Do(s, b), a).threads;
  }

  // ---- Serialisation ----

  // Who owns each thread; no step changes it.
  function Owners(s: System): map<int, UserId> {
    map i | i in s.threads :: Owner(s.threads[i])
  }

  predicate Known(owners: map<int, UserId>, schedule: seq<Action>) {
    forall a | a in schedule :: a.tid in owners
  }

  // The actions of thread i, and everybody else's.

  function Of(schedule: seq<Action>, i: int): seq<Action> {
    if schedule == [] then []
    else if schedule[0].tid == i then [schedule[0]] + Of(schedule[1..], i)
    else Of(schedule[1..], i)
  }

  function Rest(schedule: seq<Action>, i: int): (rest: seq<Action>)
    ensures |rest| <= |schedule|
    ensures schedule != [] && schedule[0].tid == i ==> |rest| < |schedule|
  {
    if schedule == [] then []
    else if schedule[0].tid == i then Rest(schedule[1..], i)
    else [schedule[0]] + Rest(schedule[1..], i)
  }

  // All commands of one thread, then all of the next one's, in the order of their first commands.
  function Grouped(schedule: seq<Action>): seq<Action>
    decreases |schedule|
  {
    if schedule == [] then []
    else Of(schedule, schedule[0].tid) + Grouped(Rest(schedule, schedule[0].tid))
  }

  // Requests run one after another: once a thread has given way it never acts again.
  ghost predicate Serial(schedule: seq<Action>) {
    forall i, j, k | 0 <= i < j < k < |schedule| && schedule[i].tid == schedule[k].tid ::
      schedule[j].tid == schedule[i].tid
  }

  // No two requests of the same user overlap: between two commands of one thread no other thread of its user acts.
  ghost predicate NoOverlap(owners: map<int, UserId>, schedule: seq<Action>)
    requires Known(owners, schedule)
  {
    forall i, j, k | 0 <= i < j < k < |schedule| && schedule[i].tid == schedule[k].tid
                     && owners[schedule[i].tid] == owners[schedule[j].tid] ::
      schedule[j].tid == schedule[i].tid
  }

  // Real time: thread i is done before thread k begins.
  ghost predicate Before(schedule: seq<Action>, i: int, k: int) {
    forall x, y | 0 <= x < |schedule| && 0 <= y < |schedule| && schedule[x].tid == i && schedule[y].tid == k :: x < y
  }

  lemma {:induction false} Members(schedule: seq<Action>, i: int)
    ensures forall a | a in Of(schedule, i) :: a in schedule && a.tid == i
    ensures forall a | a in Rest(schedule, i) :: a in schedule && a.tid != i
    ensures forall a | a in schedule :: a in Of(schedule, i) || a in Rest(schedule, i)
    decreases |schedule|
  {
    if schedule != [] {
      Members(schedule[1..], i);
      assert forall a | a in schedule :: a == schedule[0] || a in schedule[1..];
    }
  }

  lemma {:induction false} GroupedMembers(schedule: seq<Action>)
    ensures forall a | a in Grouped(schedule) :: a in schedule
    decreases |schedule|
  {
    if schedule != [] {
      var i := schedule[0].tid;
      Members(schedule, i);
      GroupedMembers(Rest(schedule, i));
    }
  }

  // Where the actions of Rest come from.
  lemma {:induction false} RestEmbeds(schedule: seq<Action>, i: int) returns (from: seq<nat>)
    ensures |from| == |Rest(schedule, i)|
    ensures forall x | 0 <= x < |from| :: from[x] < |schedule| && schedule[from[x]] == Rest(schedule, i)[x]
    ensures forall x, y | 0 <= x < y < |from| :: from[x] < from[y]
    decreases |schedule|
  {
    if schedule == [] {
      from := [];
    } else {
      var later := RestEmbeds(schedule[1..], i);
      var shifted := seq(|later|, x requires 0 <= x < |later| => later[x] + 1);
      from := if schedule[0].tid == i then shifted else [0] + shifted;
    }
  }

  lemma RestNoOverlap(owners: map<int, UserId>, schedule: seq<Action>, i: int)
    requires Known(owners, schedule) && NoOverlap(owners, schedule)
    ensures Known(owners, Rest(schedule, i)) && NoOverlap(owners, Rest(schedule, i))
  {
    Members(schedule, i);
    var from := RestEmbeds(schedule, i);
    hide Rest;
  }

  lemma RestBefore(schedule: seq<Action>, t: int, i: int, k: int)
    requires Before(schedule, i, k)
    ensures Before(Rest(schedule, t), i, k)
  {
    var from := RestEmbeds(schedule, t);
    hide Rest;
    var rest := Rest(schedule, t);
    forall x, y | 0 <= x < |rest| && 0 <= y < |rest| && rest[x].tid == i && rest[y].tid == k ensures x < y {
      assert from[x] < from[y];
    }
  }

  lemma {:induction false} AfterConcat(s: System, x: seq<Action>, y: seq<Action>)
    ensures After(s, x + y) == After(After(s, x), y)
    decreases |x|
  {
    if x == [] {
      assert x + y == y;
    } else {
      assert (x + y)[0] == x[0] && (x + y)[1..] == x[1..] + y;
      AfterConcat(Do(s, x[0]), x[1..], y);
    }
  }

  lemma {:induction false} AfterKeepsOwners(s: System, schedule: seq<Action>)
    requires Separate(s)
    ensures Separate(After(s, schedule)) && Owners(After(s, schedule)) == Owners(s)
    decreases |schedule|
  {
    if schedule != [] {
      DoKeepsSeparate(s, schedule[0]);
      AfterKeepsOwners(Do(s, schedule[0]), schedule[1..]);
    }
  }

  // An action moves to the right past a block of other users' actions.
  lemma {:induction false} MovePast(s: System, a: Action, block: seq<Action>)
    requires Separate(s) && a.tid in s.threads && Known(Owners(s), block)
    requires forall b | b in block :: Owners(s)[b.tid] != Owners(s)[a.tid]
    ensures After(Do(s, a), block) == Do(After(s, block), a)
    decreases |block|
  {
    if block != [] {
      var b := block[0];
      assert b in block;
      Commute(s, a, b);
      DoKeepsSeparate(s, b);
      hide Do;
      MovePast(Do(s, b), a, block[1..]);
    }
  }

  lemma AfterCons(s: System, a: Action, rest: seq<Action>)
    ensures After(s, [a] + rest) == After(Do(s, a), rest)
  {
    assert ([a] + rest)[1..] == rest;
  }

  lemma MovePastInto(s: System, a: Action, own: seq<Action>, others: seq<Action>)
    requires Separate(s) && a.tid in s.threads && Known(Owners(s), own)
    requires forall b | b in own :: Owners(s)[b.tid] != Owners(s)[a.tid]
    ensures After(Do(s, a), own + others) == After(s, own + ([a] + others))
  {
    MovePast(s, a, own);
    hide Do, After, Separate;
    AfterConcat(Do(s, a), own, others);
    AfterConcat(s, own, [a] + others);
    AfterCons(After(s, own), a, others);
  }

  lemma StayFirst(s: System, a: Action, own: seq<Action>, others: seq<Action>)
    ensures After(Do(s, a), own + others) == After(s, [a] + own + others)
  {
    AfterCons(s, a, own + others);
    assert [a] + own + others == [a] + (own + others);
  }

  // What acts before a command of thread i belongs to thread i or to another user.
  ghost predicate Apart(owners: map<int, UserId>, schedule: seq<Action>, i: int)
    requires Known(owners, schedule) && i in owners
  {
    forall j, k | 0 <= j < k < |schedule| && schedule[k].tid == i && schedule[j].tid != i ::
      owners[schedule[j].tid] != owners[i]
  }

  // Doing thread i's actions first, then everybody else's, ends in the same state.
  lemma {:induction false} Partition(s: System, schedule: seq<Action>, i: int)
    requires Separate(s) && Known(Owners(s), schedule) && i in Owners(s) && Apart(Owners(s), schedule, i)
    ensures After(s, schedule) == After(s, Of(schedule, i) + Rest(schedule, i))
    decreases |schedule|
  {
    if schedule != [] {
      var a, rest := schedule[0], schedule[1..];
      DoKeepsSeparate(s, a);
      Partition(Do(s, a), rest, i);
      Members(rest, i);
      assert a in schedule && schedule == [a] + rest;
      hide Do, After, Separate, Owners;
      AfterCons(s, a, rest);
      if a.tid == i {
        StayFirst(s, a, Of(rest, i), Rest(rest, i));
      } else {
        forall b | b in Of(rest, i) ensures Owners(s)[b.tid] != Owners(s)[a.tid] {
          var k :| 0 <= k < |rest| && rest[k] == b;
          assert schedule[k + 1] == b && schedule[0] == a;
        }
        MovePastInto(s, a, Of(rest, i), Rest(rest, i));
      }
    }
  }

  lemma {:induction false} GroupedSameState(s: System, schedule: seq<Action>)
    requires Separate(s) && Known(Owners(s), schedule) && NoOverlap(Owners(s), schedule)
    ensures After(s, schedule) == After(s, Grouped(schedule))
    decreases |schedule|
  {
    if schedule != [] {
      var i := schedule[0].tid;
      assert schedule[0] in schedule;
      Partition(s, schedule, i);
      var own, others := Of(schedule, i), Rest(schedule, i);
      RestNoOverlap(Owners(s), schedule, i);
      AfterKeepsOwners(s, own);
      hide Separate, Owners, NoOverlap, Of, Rest, Apart;
      GroupedSameState(After(s, own), others);
      AfterConcat(s, own, others);
      AfterConcat(s, own, Grouped(others));
    }
  }

  // Grouping keeps every thread's actions in their order.
  lemma {:induction false} OfConcat(x: seq<Action>, y: seq<Action>, i: int)
    ensures Of(x + y, i) == Of(x, i) + Of(y, i)
    decreases |x|
  {
    if x == [] {
      assert x + y == y;
    } else {
      assert (x + y)[0] == x[0] && (x + y)[1..] == x[1..] + y;
      OfConcat(x[1..], y, i);
    }
  }

  lemma {:induction false} OfParts(schedule: seq<Action>, i: int, k: int)
    ensures Of(Of(schedule, i), k) == if i == k then Of(schedule, i) else []
    ensures Of(Rest(schedule, i), k) == if i == k then [] else Of(schedule, k)
    decreases |schedule|
  {
    if schedule != [] {
      OfParts(schedule[1..], i, k);
    }
  }

  lemma {:induction false} GroupedSameOrder(schedule: seq<Action>, k: int)
    ensures Of(Grouped(schedule), k) == Of(schedule, k)
    decreases |schedule|
  {
    if schedule != [] {
      var i := schedule[0].tid;
      GroupedSameOrder(Rest(schedule, i), k);
      OfConcat(Of(schedule, i), Grouped(Rest(schedule, i)), k);
      OfParts(schedule, i, k);
    }
  }

  lemma {:induction false} PartsPermute(schedule: seq<Action>, i: int)
    ensures multiset(Of(schedule, i)) + multiset(Rest(schedule, i)) == multiset(schedule)
    decreases |schedule|
  {
    if schedule != [] {
      PartsPermute(schedule[1..], i);
      assert schedule == [schedule[0]] + schedule[1..];
    }
  }

  lemma {:induction false} GroupedPermutes(schedule: seq<Action>)
    ensures multiset(Grouped(schedule)) == multiset(schedule)
    decreases |schedule|
  {
    if schedule != [] {
      var i := schedule[0].tid;
      GroupedPermutes(Rest(schedule, i));
      PartsPermute(schedule, i);
    }
  }

  lemma SerialConcat(x: seq<Action>, y: seq<Action>)
    requires Serial(x) && Serial(y)
    requires forall a, b | a in x && b in y :: a.tid != b.tid
    ensures Serial(x + y)
  {
    var z := x + y;
    forall i, k | 0 <= i < |x| <= k < |z| ensures z[i].tid != z[k].tid {
      assert z[i] in x && z[k] == y[k - |x|] && z[k] in y;
    }
    forall i, j, k | 0 <= i < j < k < |z| && z[i].tid == z[k].tid ensures z[j].tid == z[i].tid {
      if k < |x| {
        assert z[i] == x[i] && z[j] == x[j] && z[k] == x[k];
      } else {
        assert z[i] == y[i - |x|] && z[j] == y[j - |x|] && z[k] == y[k - |x|];
      }
    }
  }

  lemma {:induction false} GroupedSerial(schedule: seq<Action>)
    ensures Serial(Grouped(schedule))
    decreases |schedule|
  {
    if schedule != [] {
      var i := schedule[0].tid;
      GroupedSerial(Rest(schedule, i));
      Members(schedule, i);
      GroupedMembers(Rest(schedule, i));
      SerialConcat(Of(schedule, i), Grouped(Rest(schedule, i)));
    }
  }

  lemma NothingBeforeFirst(schedule: seq<Action>, i: int)
    requires schedule != [] && Before(schedule, i, schedule[0].tid)
    ensures forall a | a in schedule :: a.tid != i
  {
  }

  lemma BeforeConcat(own: seq<Action>, later: seq<Action>, t: int, i: int, k: int)
    requires k != t && Before(later, i, k)
    requires (forall a | a in own :: a.tid == t) && (forall a | a in later :: a.tid != t)
    ensures Before(own + later, i, k)
  {
    var z := own + later;
    forall y | 0 <= y < |own| ensures z[y].tid == t {
      assert z[y] in own;
    }
    forall x, y | 0 <= x < |z| && 0 <= y < |z| && z[x].tid == i && z[y].tid == k ensures x < y {
      assert z[y] == later[y - |own|];
      if x >= |own| {
        assert z[x] == later[x - |own|];
      }
    }
  }

  // A thread done before another begins stays before it.
  lemma {:induction false} GroupedBefore(schedule: seq<Action>, i: int, k: int)
    requires Before(schedule, i, k)
    ensures Before(Grouped(schedule), i, k)
    decreases |schedule|
  {
    if schedule != [] {
      var t := schedule[0].tid;
      GroupedMembers(schedule);
      if k == t {
        NothingBeforeFirst(schedule, i);
        hide Grouped;
      } else {
        Members(schedule, t);
        GroupedMembers(Rest(schedule, t));
        RestBefore(schedule, t, i, k);
        GroupedBefore(Rest(schedule, t), i, k);
        BeforeConcat(Of(schedule, t), Grouped(Rest(schedule, t)), t, i, k);
      }
    }
  }

  // Any interleaving in which no two requests of one user overlap ends in the same Redis, with the same answers,
  // as running the same commands with the same timestamps one request after another, in an order that
  // keeps every request done before another began ahead of it.
  lemma CrossUserSerialisable(s: System, schedule: seq<Action>)
    requires Separate(s) && Known(Owners(s), schedule) && NoOverlap(Owners(s), schedule)
    ensures exists serial ::
      && Serial(serial) && multiset(serial) == multiset(schedule)
      && (forall i :: Of(serial, i) == Of(schedule, i))
      && (forall i, k | Before(schedule, i, k) :: Before(serial, i, k))
      && After(s, serial) == After(s, schedule)
  {
    var serial := Grouped(schedule);
    GroupedSameState(s, schedule);
    GroupedPermutes(schedule);
    GroupedSerial(schedule);
    forall i ensures Of(serial, i) == Of(schedule, i) {
      GroupedSameOrder(schedule, i);
    }
    forall i, k | Before(schedule, i, k) ensures Before(serial, i, k) {
      GroupedBefore(schedule, i, k);
    }
  }
}
