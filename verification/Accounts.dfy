/** Rows over runs: email uniqueness, password history, permanent withdrawal. */
module Accounts {
  import opened Base
  import opened TypedRedis
  import opened Database
  import opened Protocol
  import opened Log
  import opened Runs
  import opened History
  import opened AccessTokens

  predicate SignsUp(e: Entry, u: UserId) {
    e.call.SignupCall? && e.Committed() && e.call.newId == u
  }

  predicate Deletes(e: Entry, u: UserId) {
    e.call.DeleteAccountCall? && e.Committed() && e.call.token.sub == u
  }

  predicate SetsPassword(e: Entry, u: UserId) {
    SignsUp(e, u) || (e.call.ChangePasswordCall? && e.Committed() && e.call.token.sub == u)
  }

  function PasswordSet(e: Entry): string
    requires e.call.SignupCall? || e.call.ChangePasswordCall?
  {
    if e.call.SignupCall? then e.call.password else e.call.next
  }

  // Before entry n, entry i set the password of u last.
  ghost predicate SetLast(entries: seq<Entry>, n: nat, i: int, u: UserId)
    requires n <= |entries|
  {
    && 0 <= i < n && SetsPassword(entries[i], u)
    && forall j | i < j < n :: !SetsPassword(entries[j], u)
  }

  lemma SetLastUnique(entries: seq<Entry>, n: nat, i: int, j: int, u: UserId)
    requires n <= |entries| && SetLast(entries, n, i, u) && SetLast(entries, n, j, u)
    ensures i == j
  {
    assert SetsPassword(entries[i], u) && SetsPassword(entries[j], u);
  }

  lemma UsersStep(cfg: Config, run: Run, n: nat)
    requires IsRun(cfg, run) && n < |run.entries|
    ensures
      var e := run.entries[n];
      run.worlds[n + 1].db.users ==
        if e.Committed() then ApplyUsers(e, run.worlds[n].db.users) else run.worlds[n].db.users
    ensures
      var e := run.entries[n];
      e.call.SignupCall? && e.Committed() ==>
        e.call.newId !in run.worlds[n].db.users && !EmailTaken(run.worlds[n].db, e.call.email)
    ensures
      var e := run.entries[n];
      (e.call.ChangePasswordCall? || e.call.DeleteAccountCall?) && e.Committed() ==>
        Present(run.worlds[n].db, e.call.token.sub)
  {
    StepAtEffect(cfg, run, n);
    if run.entries[n].outcome.Done? {
      AccountGuards(cfg, run.worlds[n], run.entries[n]);
    }
    hide IsRun, Inv, Fresh, EffectOf, Apply, ApplyDevices, ApplyUsers, ApplyBlacklist, Step;
  }

  // What a finished signup, password change or deletion had checked.
  lemma AccountGuards(cfg: Config, w: World, e: Entry)
    requires Step(cfg, w, e.call, e.t, e.commits).1 == e.outcome && e.outcome.Done?
    ensures e.call.SignupCall? ==> e.call.newId !in w.db.users && !EmailTaken(w.db, e.call.email)
    ensures e.call.ChangePasswordCall? ==>
      var u := e.call.token.sub;
      Present(w.db, u) && w.db.users[u].hashedPassword == HashPassword(e.call.current) && e.call.next != e.call.current
    ensures e.call.DeleteAccountCall? ==>
      Present(w.db, e.call.token.sub)
      && w.db.users[e.call.token.sub].hashedPassword == HashPassword(e.call.password)
  {
    if e.call.SignupCall? {
      SignupChecked(cfg, w, e);
    } else if e.call.ChangePasswordCall? || e.call.DeleteAccountCall? {
      DecodedIsToken(w, e.call.token, e.call.device, e.t);
      hide Authenticate, DeleteAll, SwitchedOff, ActiveDevices;
    }
  }

  // ---- Rows follow the log ----

  // What one entry does to the row of u: a signup makes it, a deletion dates it, and nothing else touches the rest.
  lemma UserRowStep(cfg: Config, run: Run, n: nat, u: UserId)
    requires IsRun(cfg, run) && n < |run.entries|
    ensures
      var e, before, after := run.entries[n], run.worlds[n].db.users, run.worlds[n + 1].db.users;
      && (u in after <==> u in before || SignsUp(e, u))
      && (SignsUp(e, u) ==>
            && u !in before && after[u].email == e.call.email && after[u].name == e.call.name
            && after[u].deletedAt == None)
      && (Deletes(e, u) ==> u in before && before[u].deletedAt == None)
      && (u in before ==>
            && after[u].email == before[u].email && after[u].name == before[u].name
            && after[u].deletedAt == if Deletes(e, u) then Some(e.t.stamp) else before[u].deletedAt)
  {
    UsersStep(cfg, run, n);
    hide IsRun;
  }

  // A user row is what the log says: made by a committed signup, whose email and name it keeps for ever,
  // and deleted when a deletion committed, at the instant of that deletion.
  lemma {:induction false} RowFollowsLog(cfg: Config, run: Run, n: nat, u: UserId)
    requires IsRun(cfg, run) && n < |run.worlds|
    ensures
      var users := run.worlds[n].db.users;
      && (u in users <==> exists s :: 0 <= s < n && SignsUp(run.entries[s], u))
      && (u in users ==>
            && (forall s | 0 <= s < n && SignsUp(run.entries[s], u) ::
                  users[u].email == run.entries[s].call.email && users[u].name == run.entries[s].call.name)
            && (users[u].deletedAt.Some? <==> exists m :: 0 <= m < n && Deletes(run.entries[m], u))
            && (forall m | 0 <= m < n && Deletes(run.entries[m], u) ::
                  users[u].deletedAt == Some(run.entries[m].t.stamp)))
  {
    if n > 0 {
      RowFollowsLog(cfg, run, n - 1, u);
      UserRowStep(cfg, run, n - 1, u);
      if SignsUp(run.entries[n - 1], u) {
        DeletesOnlyRows(cfg, run, n - 1, u);
      }
      hide IsRun, SignsUp, Deletes;
    }
  }

  lemma {:induction false} DeletesOnlyRows(cfg: Config, run: Run, n: nat, u: UserId)
    requires IsRun(cfg, run) && n < |run.worlds| && u !in run.worlds[n].db.users
    ensures forall m | 0 <= m < n :: !Deletes(run.entries[m], u) && !SetsPassword(run.entries[m], u)
  {
    if n > 0 {
      UsersStep(cfg, run, n - 1);
      DeletesOnlyRows(cfg, run, n - 1, u);
    }
  }

  lemma {:induction false} PasswordFollowsLog(cfg: Config, run: Run, n: nat, u: UserId)
    requires IsRun(cfg, run) && n < |run.worlds|
    ensures u in run.worlds[n].db.users ==> exists i :: SetLast(run.entries, n, i, u)
    ensures forall i | SetLast(run.entries, n, i, u) ::
      && SetsPassword(run.entries[i], u)
      && u in run.worlds[n].db.users
      && run.worlds[n].db.users[u].hashedPassword == HashPassword(PasswordSet(run.entries[i]))
  {
    if n > 0 {
      PasswordFollowsLog(cfg, run, n - 1, u);
      UsersStep(cfg, run, n - 1);
      var e := run.entries[n - 1];
      hide IsRun;
      var m := n - 1;
      if SetsPassword(e, u) {
        assert SetLast(run.entries, n, m, u);
      } else {
        if i :| SetLast(run.entries, m, i, u) {
          assert SetLast(run.entries, n, i, u);
        }
        forall i | SetLast(run.entries, n, i, u) ensures SetLast(run.entries, m, i, u) {
        }
      }
    }
  }

  // ---- Email uniqueness ----

  // Signup succeeds iff no committed signup ever used the email, whatever happened to that account since.
  lemma SignupIffNewEmail(cfg: Config, run: Run, n: nat)
    requires IsRun(cfg, run) && n < |run.entries| && run.entries[n].call.SignupCall?
    ensures
      var e := run.entries[n];
      e.outcome.Done? <==>
        forall s, u | 0 <= s < n && SignsUp(run.entries[s], u) :: run.entries[s].call.email != e.call.email
    ensures
      var e := run.entries[n];
      e.outcome == if e.outcome.Done? then Done(SignedUp(e.call.newId, e.call.email, e.call.name))
                   else Failed(EmailAlreadyExists)
  {
    var e, db := run.entries[n], run.worlds[n].db;
    StepAtEffect(cfg, run, n);
    NeverManyRows(db, e.call.email);
    assert e.outcome.Done? <==> !EmailTaken(db, e.call.email);
    EmailTakenIffSignedUp(cfg, run, n, e.call.email);
  }

  lemma EmailTakenIffSignedUp(cfg: Config, run: Run, n: nat, email: string)
    requires IsRun(cfg, run) && n < |run.worlds|
    ensures EmailTaken(run.worlds[n].db, email) <==>
      exists s, u :: 0 <= s < n && SignsUp(run.entries[s], u) && run.entries[s].call.email == email
  {
    var db := run.worlds[n].db;
    assert n <= |run.entries|;
    hide IsRun;
    if EmailTaken(db, email) {
      var u :| u in db.users && db.users[u].email == email;
      RowFollowsLog(cfg, run, n, u);
      var s :| 0 <= s < n && SignsUp(run.entries[s], u);
      assert run.entries[s].call.email == email;
    }
    if s, u :| 0 <= s < n && SignsUp(run.entries[s], u) && run.entries[s].call.email == email {
      RowFollowsLog(cfg, run, n, u);
      assert db.users[u].email == email;
    }
  }

  // No lookup by email ever meets two rows, so no request fails on it; and no status check of login ever fires.
  lemma DeadErrors(cfg: Config, run: Run, n: nat)
    requires IsRun(cfg, run) && n < |run.entries|
    ensures run.entries[n].outcome.Failed? ==>
      run.entries[n].outcome.error !in {MultipleRowsFound, MissingClaim, AccountSuspended, AccountWithdrawn}
  {
    var e, w := run.entries[n], run.worlds[n];
    StepAtEffect(cfg, run, n);
    hide IsRun, ApplyEntry, Fresh;
    if e.call.SignupCall? || e.call.LoginCall? {
      NeverManyRows(w.db, e.call.email);
      hide FindByEmail, StoreRefresh, UpsertDevice;
    } else if e.call.Protected() {
      if e.outcome.Failed? {
        ProtectedErrors(cfg, w, e);
      }
      hide Inv, Step;
    } else {
      hide StoreRefresh, DeleteRefresh;
    }
  }

  // Signed tokens are well formed, so no decoded payload lacks a claim.
  lemma ProtectedErrors(cfg: Config, w: World, e: Entry)
    requires SignedForUsers(w) && e.call.Protected()
    requires Step(cfg, w, e.call, e.t, e.commits).1 == e.outcome && e.outcome.Failed?
    ensures e.outcome.error !in {MultipleRowsFound, MissingClaim, AccountSuspended, AccountWithdrawn}
  {
    hide DeleteRefresh, DeleteAll, Blacklist, SwitchedOff, TotalSeconds, ListDevices, ActiveDevices;
  }

  // ---- Password history ----

  // Login succeeds iff the email belongs to an account that was not deleted and the password is the one set last.
  lemma LoginIffLastPassword(cfg: Config, run: Run, n: nat)
    requires IsRun(cfg, run) && n < |run.entries| && run.entries[n].call.LoginCall?
    ensures
      var e := run.entries[n];
      e.outcome.Done? <==>
        exists u, s, i ::
          && 0 <= s < n && SignsUp(run.entries[s], u) && run.entries[s].call.email == e.call.email
          && (forall m | 0 <= m < n :: !Deletes(run.entries[m], u))
          && SetLast(run.entries, n, i, u) && PasswordSet(run.entries[i]) == e.call.password
    ensures !run.entries[n].outcome.Done? ==> run.entries[n].outcome == Failed(InvalidCredentials)
  {
    var e, db := run.entries[n], run.worlds[n].db;
    StepAtEffect(cfg, run, n);
    NeverManyRows(db, e.call.email);
    LoginDecision(cfg, run.worlds[n], e);
    hide Step, IsRun, ApplyEntry, StatusMatchesDeletion, LiveWithinIndex, UniqueIds, SignedForUsers, FindByEmail;
    if e.outcome.Done? {
      var u := FindByEmail(db, e.call.email).id;
      RowFollowsLog(cfg, run, n, u);
      PasswordFollowsLog(cfg, run, n, u);
      var s :| 0 <= s < n && SignsUp(run.entries[s], u);
      var i :| SetLast(run.entries, n, i, u);
    }
    if u, s, i :|
        && 0 <= s < n && SignsUp(run.entries[s], u) && run.entries[s].call.email == e.call.email
        && (forall m | 0 <= m < n :: !Deletes(run.entries[m], u))
        && SetLast(run.entries, n, i, u) && PasswordSet(run.entries[i]) == e.call.password {
      RowFollowsLog(cfg, run, n, u);
      PasswordFollowsLog(cfg, run, n, u);
      OneRowWhenUnique(db, u);
    }
  }

  lemma LoginDecision(cfg: Config, w: World, e: Entry)
    requires Inv(w) && e.call.LoginCall?
    requires Step(cfg, w, e.call, e.t, e.commits).1 == e.outcome
    ensures
      var found := FindByEmail(w.db, e.call.email);
      e.outcome.Done? <==> found.OneRow? && VerifyPassword(e.call.password, w.db.users[found.id].hashedPassword)
    ensures !e.outcome.Done? ==> e.outcome == Failed(InvalidCredentials)
  {
    NeverManyRows(w.db, e.call.email);
    hide StoreRefresh, FindByEmail;
  }

  // Before entry n a deletion of u committed.
  predicate Gone(entries: seq<Entry>, n: nat, u: UserId)
    requires n <= |entries|
  {
    exists m :: 0 <= m < n && Deletes(entries[m], u)
  }

  // Before entry n the password of u was set last to this one.
  ghost predicate IsPassword(entries: seq<Entry>, n: nat, u: UserId, password: string)
    requires n <= |entries|
  {
    exists i :: SetLast(entries, n, i, u) && PasswordSet(entries[i]) == password
  }

  // The row of a user who exists, in terms of the log.
  lemma AccountFollowsLog(cfg: Config, run: Run, n: nat, u: UserId, password: string)
    requires IsRun(cfg, run) && n < |run.worlds| && u in run.worlds[n].db.users
    ensures Present(run.worlds[n].db, u) <==> !Gone(run.entries, n, u)
    ensures run.worlds[n].db.users[u].hashedPassword == HashPassword(password) <==>
      IsPassword(run.entries, n, u, password)
  {
    RowFollowsLog(cfg, run, n, u);
    PasswordFollowsLog(cfg, run, n, u);
    hide IsRun, SetsPassword, Deletes;
    var i :| SetLast(run.entries, n, i, u);
    forall k | SetLast(run.entries, n, k, u) ensures k == i {
      SetLastUnique(run.entries, n, k, i, u);
    }
  }

  lemma CallerHasRow(cfg: Config, run: Run, n: nat)
    requires IsRun(cfg, run) && n < |run.entries| && run.entries[n].call.Protected() && Authenticated(run.entries[n])
    ensures run.entries[n].call.token.sub in run.worlds[n].db.users
    ensures Authenticate(run.worlds[n], run.entries[n].call.token, run.entries[n].call.device, run.entries[n].t).Ok?
    ensures
      var e := run.entries[n];
      Step(cfg, run.worlds[n], e.call, e.t, e.commits).1 == e.outcome
  {
    var e, w := run.entries[n], run.worlds[n];
    StepAtEffect(cfg, run, n);
    AuthenticatedStep(cfg, w, e);
    DecodedIsToken(w, e.call.token, e.call.device, e.t);
    hide IsRun, Step, ApplyEntry, Fresh, UniqueEmails, StatusMatchesDeletion, LiveWithinIndex, UniqueIds;
  }

  // A password change that got past get_current_user succeeds iff the account was not deleted, the current password
  // it gives is the one set last, and the new one differs from it; and the first of these that fails is the answer.
  lemma ChangeIffLastPassword(cfg: Config, run: Run, n: nat)
    requires IsRun(cfg, run) && n < |run.entries| && run.entries[n].call.ChangePasswordCall?
    requires Authenticated(run.entries[n])
    ensures
      var e := run.entries[n];
      var u := e.call.token.sub;
      var gone, right := Gone(run.entries, n, u), IsPassword(run.entries, n, u, e.call.current);
      && (e.outcome == Failed(UserNotFound) <==> gone)
      && (e.outcome == Failed(CurrentPasswordMismatch) <==> !gone && !right)
      && (e.outcome == Failed(SamePassword) <==> !gone && right && e.call.next == e.call.current)
      && (e.outcome == Done(PasswordChanged) <==> !gone && right && e.call.next != e.call.current)
  {
    var e := run.entries[n];
    CallerHasRow(cfg, run, n);
    AccountFollowsLog(cfg, run, n, e.call.token.sub, e.call.current);
    ChangeDecision(cfg, run.worlds[n], e);
    hide IsRun, Step, Gone, IsPassword, Present, Authenticated, Authenticate;
  }

  lemma ChangeDecision(cfg: Config, w: World, e: Entry)
    requires e.call.ChangePasswordCall? && Authenticate(w, e.call.token, e.call.device, e.t).Ok?
    requires Step(cfg, w, e.call, e.t, e.commits).1 == e.outcome
    ensures
      var present := Present(w.db, e.call.token.sub);
      var right := present && w.db.users[e.call.token.sub].hashedPassword == HashPassword(e.call.current);
      && (e.outcome == Failed(UserNotFound) <==> !present)
      && (e.outcome == Failed(CurrentPasswordMismatch) <==> present && !right)
      && (e.outcome == Failed(SamePassword) <==> right && e.call.next == e.call.current)
      && (e.outcome == Done(PasswordChanged) <==> right && e.call.next != e.call.current)
  {
    DecodedIsToken(w, e.call.token, e.call.device, e.t);
    hide Authenticate, DeleteAll, SwitchedOff, ActiveDevices;
  }

  // The same for account deletion.
  lemma DeletionIffPassword(cfg: Config, run: Run, n: nat)
    requires IsRun(cfg, run) && n < |run.entries| && run.entries[n].call.DeleteAccountCall?
    requires Authenticated(run.entries[n])
    ensures
      var e := run.entries[n];
      var u := e.call.token.sub;
      var gone, right := Gone(run.entries, n, u), IsPassword(run.entries, n, u, e.call.password);
      && (e.outcome == Failed(UserNotFound) <==> gone)
      && (e.outcome == Failed(CurrentPasswordMismatch) <==> !gone && !right)
      && (e.outcome == Done(AccountDeleted) <==> !gone && right)
  {
    var e := run.entries[n];
    CallerHasRow(cfg, run, n);
    AccountFollowsLog(cfg, run, n, e.call.token.sub, e.call.password);
    DeletionDecision(cfg, run.worlds[n], e);
    hide IsRun, Step, Gone, IsPassword, Present, Authenticated, Authenticate;
  }

  lemma DeletionDecision(cfg: Config, w: World, e: Entry)
    requires e.call.DeleteAccountCall? && Authenticate(w, e.call.token, e.call.device, e.t).Ok?
    requires Step(cfg, w, e.call, e.t, e.commits).1 == e.outcome
    ensures
      var present := Present(w.db, e.call.token.sub);
      var right := present && w.db.users[e.call.token.sub].hashedPassword == HashPassword(e.call.password);
      && (e.outcome == Failed(UserNotFound) <==> !present)
      && (e.outcome == Failed(CurrentPasswordMismatch) <==> present && !right)
      && (e.outcome == Done(AccountDeleted) <==> right)
  {
    DecodedIsToken(w, e.call.token, e.call.device, e.t);
    hide Authenticate, DeleteAll, SwitchedOff, ActiveDevices;
  }

  // After a committed change the password it replaced is refused, until some later entry sets a password again.
  lemma PreviousPasswordRefused(cfg: Config, run: Run, m: nat, n: nat, u: UserId)
    requires IsRun(cfg, run) && m < n < |run.entries|
    requires run.entries[m].call.ChangePasswordCall? && SetsPassword(run.entries[m], u)
    requires SetLast(run.entries, n, m, u)
    requires run.entries[n].call.LoginCall? && run.entries[n].call.password == run.entries[m].call.current
    requires exists s ::
      0 <= s < n && SignsUp(run.entries[s], u) && run.entries[s].call.email == run.entries[n].call.email
    ensures run.entries[n].outcome == Failed(InvalidCredentials)
  {
    LoginIffLastPassword(cfg, run, n);
    NextDiffers(cfg, run, m);
    hide IsRun, SignsUp, SetLast, SetsPassword;
    var e := run.entries[n];
    assert PasswordSet(run.entries[m]) == run.entries[m].call.next;
    if e.outcome.Done? {
      var v, s, i :|
        && 0 <= s < n && SignsUp(run.entries[s], v) && run.entries[s].call.email == e.call.email
        && SetLast(run.entries, n, i, v) && PasswordSet(run.entries[i]) == e.call.password;
      OneAccountPerEmail(cfg, run, n, u, v, e.call.email);
      SetLastUnique(run.entries, n, i, m, u);
      assert false;
    }
  }

  lemma NextDiffers(cfg: Config, run: Run, m: nat)
    requires IsRun(cfg, run) && m < |run.entries|
    requires run.entries[m].call.ChangePasswordCall? && run.entries[m].outcome.Done?
    ensures run.entries[m].call.next != run.entries[m].call.current
  {
    StepAtEffect(cfg, run, m);
    AccountGuards(cfg, run.worlds[m], run.entries[m]);
  }

  lemma OneAccountPerEmail(cfg: Config, run: Run, n: nat, u: UserId, v: UserId, email: string)
    requires IsRun(cfg, run) && n < |run.worlds|
    requires exists s :: 0 <= s < n && SignsUp(run.entries[s], u) && run.entries[s].call.email == email
    requires exists s :: 0 <= s < n && SignsUp(run.entries[s], v) && run.entries[s].call.email == email
    ensures u == v
  {
    RowFollowsLog(cfg, run, n, u);
    RowFollowsLog(cfg, run, n, v);
    InvAt(cfg, run, n);
    hide IsRun;
  }

  // ---- Withdrawal ----

  // After delete_account commits, no request of any continuation mints a token for the user.
  lemma WithdrawalIsPermanent(cfg: Config, run: Run, m: nat, n: nat, u: UserId)
    requires IsRun(cfg, run) && m < n < |run.entries| && Deletes(run.entries[m], u)
    ensures forall c | c in Minted(run.entries[n]) :: c.sub != u
  {
    RowFollowsLog(cfg, run, n, u);
    UsersStep(cfg, run, m);
    StepAtEffect(cfg, run, n);
    MintsAre(cfg, run.worlds[n], run.entries[n]);
    hide IsRun, Step, Inv;
  }
}
