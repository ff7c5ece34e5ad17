/** Whole-request runs, and what every reachable state satisfies. */
module Runs {
  import opened Base
  import opened Jwt
  import opened TypedRedis
  import opened Database
  import opened Protocol
  import opened Log

  // entries[i] took worlds[i] to worlds[i + 1].
  datatype Run = Run(entries: seq<Entry>, worlds: seq<World>)

  // Fresh UUIDs: new token ids were never signed, new user ids name no row.
  predicate Fresh(w: World, call: Call) {
    match call
    case SignupCall(newId, _, _, _) => newId !in w.db.users
    case LoginCall(_, _, _, _, atId, rtId) => FreshIds(w.signed, atId, rtId)
    case RefreshCall(_, _, _, atId, rtId) => FreshIds(w.signed, atId, rtId)
    case _ => true
  }

  predicate FreshIds(signed: set<Claims>, atId: Jti, rtId: Jti) {
    atId != rtId && forall c | c in signed :: c.jti != atId && c.jti != rtId
  }

  ghost predicate StepAt(cfg: Config, run: Run, i: nat)
    requires i < |run.entries| && |run.worlds| == |run.entries| + 1
  {
    var e := run.entries[i];
    && Fresh(run.worlds[i], e.call)
    && e.t.Ordered()
    && Step(cfg, run.worlds[i], e.call, e.t, e.commits) == (run.worlds[i + 1], e.outcome)
  }

  // Requests one after another from the empty system, under a clock that never goes backwards.
  ghost predicate IsRun(cfg: Config, run: Run) {
    && |run.worlds| == |run.entries| + 1
    && run.worlds[0] == INIT
    && (forall i | 0 <= i < |run.entries| :: StepAt(cfg, run, i))
    && (forall i, j | 0 <= i < j < |run.entries| :: run.entries[i].t.exec <= run.entries[j].t.decode)
  }

  // No database failure in the first n requests: their commits succeed.
  predicate CommitsBefore(run: Run, n: nat)
    requires n <= |run.entries|
  {
    forall i | 0 <= i < n :: run.entries[i].commits
  }

  // ---- The invariant ----

  // The unique column: no two rows, live or withdrawn, share an email.
  predicate UniqueEmails(db: DbState) {
    forall u, v | u in db.users && v in db.users && db.users[u].email == db.users[v].email :: u == v
  }

  // deleted_at is set exactly on withdrawn rows, and no row is suspended.
  predicate StatusMatchesDeletion(db: DbState) {
    forall u | u in db.users ::
      (db.users[u].deletedAt.Some? <==> db.users[u].status == Withdrawn) && db.users[u].status != Inactive
  }

  // Every record is in its user's device set, and belongs to a user who is not withdrawn.
  predicate LiveWithinIndex(w: World) {
    forall p | p in w.redis.rt :: p.1 in Indexed(w.redis, p.0) && Present(w.db, p.0)
  }

  predicate UniqueIds(signed: set<Claims>) {
    forall c, c' | c in signed && c' in signed && c.jti == c'.jti :: c == c'
  }

  predicate WellFormed(c: Claims) {
    c.iss == ISSUER && (c.kind == Access ==> c.aud == Some(AUDIENCE) && c.email.Some? && c.name.Some?)
  }

  predicate SignedForUsers(w: World) {
    forall c | c in w.signed :: c.sub in w.db.users && WellFormed(c)
  }

  predicate Inv(w: World) {
    && UniqueEmails(w.db) && StatusMatchesDeletion(w.db)
    && LiveWithinIndex(w)
    && UniqueIds(w.signed) && SignedForUsers(w)
  }

  // ---- What a finished handler had checked ----

  lemma OneRowWhenUnique(db: DbState, u: UserId)
    requires UniqueEmails(db) && Present(db, u)
    ensures FindByEmail(db, db.users[u].email) == OneRow(u)
  {
    assert Matches(db, db.users[u].email) == {u};
  }

  lemma NeverManyRows(db: DbState, email: string)
    requires UniqueEmails(db)
    ensures !FindByEmail(db, email).ManyRows?
    ensures FindByEmail(db, email).OneRow? ==>
      var u := FindByEmail(db, email).id; Present(db, u) && db.users[u].email == email
  {
    var ids := Matches(db, email);
    if u :| u in ids {
      OneRowWhenUnique(db, u);
    }
  }

  lemma LoginMints(cfg: Config, w: World, call: Call, t: Timing)
    requires call.LoginCall? && Inv(w)
    requires TryLogin(cfg, w, call, t).1.Done?
    ensures
      var r := TryLogin(cfg, w, call, t).1.response;
      && r.LoggedIn? && Present(w.db, r.userId)
      && w.db.users[r.userId].email == call.email == r.email && w.db.users[r.userId].name == r.name
      && r.access == AccessClaims(cfg, r.userId, r.email, r.name, call.device, call.atId, t.mintAt)
      && r.refresh == RefreshClaims(cfg, r.userId, call.device, call.rtId, t.mintRt)
  {
    hide StoreRefresh;
    NeverManyRows(w.db, call.email);
  }

  lemma RefreshMints(cfg: Config, w: World, call: Call, t: Timing)
    requires call.RefreshCall?
    requires TryRefresh(cfg, w, call, t).1.Done?
    ensures
      var r := TryRefresh(cfg, w, call, t).1.response;
      var u := call.token.sub;
      && r.Refreshed? && Present(w.db, u) && call.token.deviceId == call.device
      && r.access == AccessClaims(cfg, u, w.db.users[u].email, w.db.users[u].name, call.device, call.atId, t.mintAt)
      && r.refresh == RefreshClaims(cfg, u, call.device, call.rtId, t.mintRt)
  {
    hide StoreRefresh;
  }

  // Only logins and refreshes mint, and they mint for a present user with the drawn ids.
  lemma MintsAre(cfg: Config, w: World, e: Entry)
    requires Inv(w)
    requires Step(cfg, w, e.call, e.t, e.commits).1 == e.outcome
    ensures MintedAccess(e).Some? <==> MintedRefresh(e).Some?
    ensures MintedRefresh(e).Some? ==>
      var at, rt := MintedAccess(e).value, MintedRefresh(e).value;
      && e.outcome.Done? && (e.call.LoginCall? || e.call.RefreshCall?)
      && Present(w.db, rt.sub) && at.sub == rt.sub && at.deviceId == rt.deviceId == e.call.device
      && at.jti == e.call.atId && rt.jti == e.call.rtId && at.kind == Access && rt.kind == Refresh
      && WellFormed(at) && WellFormed(rt)
      && at.iat == NumericDate(e.t.mintAt) && at.exp == NumericDate(AccessExpiry(cfg, e.t.mintAt))
      && rt.iat == NumericDate(e.t.mintRt) && rt.exp == NumericDate(RefreshExpiry(cfg, e.t.mintRt))
      && (e.call.RefreshCall? ==> rt.sub == e.call.token.sub && e.call.token.deviceId == e.call.device)
  {
    if MintedRefresh(e).Some? || MintedAccess(e).Some? {
      match e.call
      case LoginCall(_, _, _, _, _, _) => hide TryLogin; LoginMints(cfg, w, e.call, e.t);
      case RefreshCall(_, _, _, _, _) => hide TryRefresh; RefreshMints(cfg, w, e.call, e.t);
      case _ => hide Authenticate;
    }
  }

  // ---- Each step keeps the invariant ----

  lemma MintsKeepUniqueIds(cfg: Config, w: World, e: Entry)
    requires Inv(w) && Fresh(w, e.call)
    requires Step(cfg, w, e.call, e.t, e.commits).1 == e.outcome
    ensures UniqueIds(w.signed + Minted(e))
    ensures forall c | c in Minted(e) :: WellFormed(c) && Present(w.db, c.sub)
  {
    hide Step;
    MintsAre(cfg, w, e);
  }

  lemma SignupChecked(cfg: Config, w: World, e: Entry)
    requires e.call.SignupCall? && e.outcome.Done?
    requires Step(cfg, w, e.call, e.t, e.commits).1 == e.outcome
    ensures e.call.newId !in w.db.users && !EmailTaken(w.db, e.call.email)
  {
  }

  // Rows keep their email for ever, and a withdrawn row is never changed back.
  ghost predicate RowsEvolve(db: DbState, db': DbState) {
    forall u | u in db.users ::
      && u in db'.users && db'.users[u].email == db.users[u].email
      && (db.users[u].deletedAt.Some? ==> db'.users[u].deletedAt.Some?)
  }

  lemma EmailsStayUnique(db: DbState, db': DbState, added: set<UserId>)
    requires UniqueEmails(db) && RowsEvolve(db, db')
    requires db'.users.Keys <= db.users.Keys + added
    requires |added| <= 1
    requires forall u | u in added && u in db'.users :: !EmailTaken(db, db'.users[u].email)
    ensures UniqueEmails(db')
  {
    forall u, v | u in db'.users && v in db'.users && db'.users[u].email == db'.users[v].email ensures u == v {
      if u in added && v in added {
        OnlyMember(added, u);
      }
    }
  }

  lemma StatusKept(e: Entry, db: DbState)
    requires StatusMatchesDeletion(db)
    ensures StatusMatchesDeletion(DbState(ApplyUsers(e, db.users), db.devices))
  {
  }

  lemma RowsEvolveBy(e: Entry, db: DbState)
    requires e.call.SignupCall? ==> e.call.newId !in db.users
    ensures RowsEvolve(db, DbState(ApplyUsers(e, db.users), db.devices))
    ensures ApplyUsers(e, db.users).Keys <= db.users.Keys + (if e.call.SignupCall? then {e.call.newId} else {})
  {
  }

  lemma UsersKept(e: Entry, db: DbState)
    requires UniqueEmails(db) && StatusMatchesDeletion(db)
    requires e.call.SignupCall? ==> e.call.newId !in db.users && !EmailTaken(db, e.call.email)
    ensures
      var db' := DbState(ApplyUsers(e, db.users), db.devices);
      UniqueEmails(db') && StatusMatchesDeletion(db') && RowsEvolve(db, db')
  {
    var db' := DbState(ApplyUsers(e, db.users), db.devices);
    StatusKept(e, db);
    RowsEvolveBy(e, db);
    if e.call.SignupCall? {
      assert db'.users[e.call.newId].email == e.call.email;
    }
    hide ApplyUsers, UniqueEmails, StatusMatchesDeletion, EmailTaken, RowsEvolve;
    EmailsStayUnique(db, db', if e.call.SignupCall? then {e.call.newId} else {});
  }

  lemma RowsKept(cfg: Config, w: World, e: Entry)
    requires Inv(w) && Fresh(w, e.call)
    requires Step(cfg, w, e.call, e.t, e.commits).1 == e.outcome
    ensures UniqueEmails(ApplyDb(e, w.db)) && StatusMatchesDeletion(ApplyDb(e, w.db))
    ensures RowsEvolve(w.db, ApplyDb(e, w.db))
  {
    if e.Committed() {
      if e.call.SignupCall? {
        SignupChecked(cfg, w, e);
      }
      UsersKept(e, w.db);
    }
    hide Step, ApplyDevices, ApplyUsers, LiveWithinIndex, UniqueIds, SignedForUsers;
  }

  lemma EffectOwner(cfg: Config, w: World, e: Entry)
    requires Inv(w)
    requires Step(cfg, w, e.call, e.t, e.commits).1 == e.outcome
    ensures EffectOf(cfg, e).Put? ==> Present(w.db, EffectOf(cfg, e).u)
  {
    hide Step, TotalSeconds;
    MintsAre(cfg, w, e);
  }

  // Applying an effect keeps every record inside the device set of its user.
  lemma ApplyKeepsIndex(effect: Effect, r: RedisState)
    requires forall p | p in r.rt :: p.1 in Indexed(r, p.0)
    ensures forall p | p in Apply(effect, r).rt :: p.1 in Indexed(Apply(effect, r), p.0)
    ensures forall p | p in Apply(effect, r).rt :: p in r.rt || (effect.Put? && p == (effect.u, effect.d))
    ensures effect.RemoveAll? ==> forall p | p in Apply(effect, r).rt :: p.0 != effect.u
  {
  }

  // delete_account that committed was preceded, in its own handler, by the removal of every record of the user.
  lemma DeletionClears(cfg: Config, e: Entry)
    requires e.call.DeleteAccountCall? && e.outcome.Done?
    ensures EffectOf(cfg, e) == RemoveAll(e.call.token.sub)
  {
  }

  lemma StillPresent(e: Entry, db: DbState, u: UserId)
    requires Present(db, u) && (e.call.SignupCall? ==> e.call.newId !in db.users)
    requires !(e.call.DeleteAccountCall? && e.outcome.Done? && e.call.token.sub == u)
    ensures Present(ApplyDb(e, db), u)
  {
    hide ApplyDevices;
  }

  // Where the records after an entry come from, and that each is in its device set.
  lemma RecordsAfter(cfg: Config, w: World, e: Entry)
    requires LiveWithinIndex(w)
    ensures
      var effect, after := EffectOf(cfg, e), ApplyEntry(cfg, e, w).redis;
      && (forall p | p in after.rt :: p.1 in Indexed(after, p.0))
      && (forall p | p in after.rt :: p in w.redis.rt || (effect.Put? && p == (effect.u, effect.d)))
      && (effect.RemoveAll? ==> forall p | p in after.rt :: p.0 != effect.u)
  {
    var r := ApplyBlacklist(e, w.redis);
    assert r.rt == w.redis.rt && r.index == w.redis.index;
    ApplyKeepsIndex(EffectOf(cfg, e), r);
    hide Apply, EffectOf, ApplyBlacklist, ApplyDb, Present;
  }

  lemma LiveKept(cfg: Config, w: World, e: Entry)
    requires Inv(w) && Fresh(w, e.call)
    requires Step(cfg, w, e.call, e.t, e.commits).1 == e.outcome
    ensures LiveWithinIndex(ApplyEntry(cfg, e, w))
  {
    var w' := ApplyEntry(cfg, e, w);
    EffectOwner(cfg, w, e);
    RecordsAfter(cfg, w, e);
    if e.call.DeleteAccountCall? && e.outcome.Done? {
      DeletionClears(cfg, e);
    }
    hide Step, Apply, EffectOf, ApplyDb, ApplyBlacklist, Indexed, Present, Minted;
    hide UniqueEmails, StatusMatchesDeletion, UniqueIds, SignedForUsers;
    forall p | p in w'.redis.rt ensures Present(w'.db, p.0) {
      assert Present(w.db, p.0);
      StillPresent(e, w.db, p.0);
    }
  }

  lemma StepKeepsInv(cfg: Config, w: World, e: Entry)
    requires Inv(w) && Fresh(w, e.call)
    requires Step(cfg, w, e.call, e.t, e.commits).1 == e.outcome
    ensures Inv(Step(cfg, w, e.call, e.t, e.commits).0)
    ensures RowsEvolve(w.db, Step(cfg, w, e.call, e.t, e.commits).0.db)
  {
    StepEffect(cfg, w, e.call, e.t, e.commits);
    RowsKept(cfg, w, e);
    LiveKept(cfg, w, e);
    MintsKeepUniqueIds(cfg, w, e);
    hide Step, Apply, EffectOf, ApplyDb, ApplyBlacklist, Minted;
  }

  lemma {:induction false} InvAt(cfg: Config, run: Run, n: nat)
    requires IsRun(cfg, run) && n < |run.worlds|
    ensures Inv(run.worlds[n])
  {
    if n > 0 {
      InvAt(cfg, run, n - 1);
      assert StepAt(cfg, run, n - 1);
      StepKeepsInv(cfg, run.worlds[n - 1], run.entries[n - 1]);
    }
  }
}
