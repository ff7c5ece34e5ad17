/** The two tables the protocol reads, the repositories over them, and the transaction around a request. */
module Database {
  import opened Base

  datatype Status = Active | Inactive | Withdrawn

  // bcrypt as an ideal hash: it verifies the password it was made from and no other.
  datatype Hash = Hash(secret: string)

  function HashPassword(password: string): Hash {
    Hash(password)
  }

  predicate VerifyPassword(password: string, hash: Hash) {
    hash == HashPassword(password)
  }

  datatype UserRow = UserRow(
    email: string, hashedPassword: Hash, name: string, status: Status, deletedAt: Option<nat>)

  datatype DeviceRow = DeviceRow(
    deviceName: Option<string>, osType: string, osVersion: Option<string>, appVersion: Option<string>,
    lastLoginIp: Option<string>, lastLoginAt: nat, lastAccessAt: nat, isActive: bool)

  datatype DbState = DbState(users: map<UserId, UserRow>, devices: map<(UserId, DeviceId), DeviceRow>)

  const NO_ROWS := DbState(map[], map[])

  // scalar_one_or_none()
  datatype Found = NoRow | OneRow(id: UserId) | ManyRows

  // ---- Queries ----

  predicate Present(db: DbState, u: UserId) {
    u in db.users && db.users[u].deletedAt.None?
  }

  function Matches(db: DbState, email: string): set<UserId> {
    set u | u in db.users && db.users[u].email == email && db.users[u].deletedAt.None?
  }

  ghost function FindByEmail(db: DbState, email: string): Found {
    var ids := Matches(db, email);
    if ids == {} then NoRow
    else if |ids| == 1 then OneRow(var u :| u in ids; u)
    else ManyRows
  }

  // The unique column ignores soft deletion.
  predicate EmailTaken(db: DbState, email: string) {
    exists u | u in db.users :: db.users[u].email == email
  }

  function ActiveDevices(db: DbState, u: UserId): set<DeviceId> {
    set p | p in db.devices && p.0 == u && db.devices[p].isActive :: p.1
  }

  // ---- Updates ----

  function PutUser(db: DbState, u: UserId, row: UserRow): DbState {
    db.(users := db.users[u := row])
  }

  function SoftDelete(db: DbState, u: UserId, now: nat): DbState
    requires u in db.users
  {
    PutUser(db, u, db.users[u].(deletedAt := Some(now), status := Withdrawn))
  }

  // Python's `new or old`: None and "" both keep the old value.
  function Or(given: Option<string>, kept: Option<string>): Option<string> {
    if given.None? || given.value == "" then kept else given
  }

  function Upserted(db: DbState, u: UserId, d: DeviceId, client: ClientInfo, now: nat): DeviceRow {
    if (u, d) !in db.devices then
      DeviceRow(client.deviceName, OsType(client), client.osVersion, client.appVersion, client.ip, now, now, true)
    else
      var row := db.devices[(u, d)];
      DeviceRow(Or(client.deviceName, row.deviceName), OsType(client), Or(client.osVersion, row.osVersion),
                Or(client.appVersion, row.appVersion), client.ip, now, now, true)
  }

  function UpsertDevice(db: DbState, u: UserId, d: DeviceId, client: ClientInfo, now: nat): DbState {
    db.(devices := db.devices[(u, d) := Upserted(db, u, d, client, now)])
  }

  // The rows of u on some devices are switched off, every other row is untouched.
  function SwitchedOff(devices: map<(UserId, DeviceId), DeviceRow>, u: UserId, ids: set<DeviceId>)
    : map<(UserId, DeviceId), DeviceRow>
  {
    map p | p in devices :: if p.0 == u && p.1 in ids then devices[p].(isActive := false) else devices[p]
  }

  function Deactivate(db: DbState, u: UserId, ids: set<DeviceId>): DbState {
    db.(devices := SwitchedOff(db.devices, u, ids))
  }

  // ---- The session and the repositories ----

  // One AsyncSession: the rows as the current transaction sees them.
  class Session {
    var users: map<UserId, UserRow>
    var devices: map<(UserId, DeviceId), DeviceRow>

    function Rows(): DbState
      reads this
    {
      DbState(users, devices)
    }

    constructor (rows: DbState)
      ensures Rows() == rows
    {
      users := rows.users;
      devices := rows.devices;
    }
  }

  class UserRepository {
    const session: Session

    constructor (session: Session)
      ensures this.session == session
    {
      this.session := session;
    }

    method GetById(u: UserId) returns (row: Option<UserRow>)
      ensures row == if Present(session.Rows(), u) then Some(session.users[u]) else None
    {
      row := if u in session.users && session.users[u].deletedAt.None? then Some(session.users[u]) else None;
    }

    method GetByEmail(email: string) returns (found: Found)
      ensures found == FindByEmail(session.Rows(), email)
    {
      var ids := Matches(session.Rows(), email);
      if ids == {} {
        found := NoRow;
      } else if |ids| == 1 {
        var u :| u in ids;
        OnlyMember(ids, u);
        found := OneRow(u);
      } else {
        found := ManyRows;
      }
    }

    method EmailExists(email: string) returns (answer: Result<bool, Error>)
      ensures answer == match FindByEmail(session.Rows(), email)
        case NoRow => Ok(false)
        case OneRow(_) => Ok(true)
        case ManyRows => Err(MultipleRowsFound)
    {
      var found := GetByEmail(email);
      answer := match found
        case NoRow => Ok(false)
        case OneRow(_) => Ok(true)
        case ManyRows => Err(MultipleRowsFound);
    }

    // flush() raises IntegrityError on a duplicate primary key or email; ok is false then.
    method Create(u: UserId, row: UserRow) returns (ok: bool)
      modifies session
      ensures ok <==> u !in old(session.users) && !EmailTaken(old(session.Rows()), row.email)
      ensures session.Rows() == if ok then PutUser(old(session.Rows()), u, row) else old(session.Rows())
    {
      ok := u !in session.users && !EmailTaken(session.Rows(), row.email);
      if ok {
        session.users := session.users[u := row];
      }
    }

    method Update(u: UserId, row: UserRow)
      modifies session
      ensures session.Rows() == PutUser(old(session.Rows()), u, row)
    {
      session.users := session.users[u := row];
    }

    method MarkDeleted(u: UserId, now: nat)
      requires u in session.users
      modifies session
      ensures session.Rows() == SoftDelete(old(session.Rows()), u, now)
    {
      var row := session.users[u];
      row := row.(deletedAt := Some(now));
      row := row.(status := Withdrawn);
      session.users := session.users[u := row];
    }
  }

  class UserDeviceRepository {
    const session: Session

    constructor (session: Session)
      ensures this.session == session
    {
      this.session := session;
    }

    method GetByUserAndDevice(u: UserId, d: DeviceId) returns (row: Option<DeviceRow>)
      ensures row.Some? <==> (u, d) in session.devices
      ensures row.Some? ==> row.value == session.devices[(u, d)]
    {
      row := if (u, d) in session.devices then Some(session.devices[(u, d)]) else None;
    }

    method GetActiveDevices(u: UserId) returns (ids: set<DeviceId>)
      ensures ids == ActiveDevices(session.Rows(), u)
      ensures forall d :: d in ids <==> (u, d) in session.devices && session.devices[(u, d)].isActive
    {
      ids := ActiveDevices(session.Rows(), u);
    }

    method Upsert(u: UserId, d: DeviceId, client: ClientInfo, now: nat)
      modifies session
      ensures session.Rows() == UpsertDevice(old(session.Rows()), u, d, client, now)
    {
      var device := GetByUserAndDevice(u, d);
      if device.None? {
        session.devices := session.devices[(u, d) :=
          DeviceRow(client.deviceName, OsType(client), client.osVersion, client.appVersion, client.ip, now, now, true)];
      } else {
        var row := device.value;
        row := row.(deviceName := Or(client.deviceName, row.deviceName));
        row := row.(osType := OsType(client));
        row := row.(osVersion := Or(client.osVersion, row.osVersion));
        row := row.(appVersion := Or(client.appVersion, row.appVersion));
        row := row.(lastLoginAt := now);
        row := row.(lastLoginIp := client.ip);
        row := row.(lastAccessAt := now);
        row := row.(isActive := true);
        session.devices := session.devices[(u, d) := row];
      }
    }

    method DeactivateDevice(u: UserId, d: DeviceId) returns (found: bool)
      modifies session
      ensures found <==> (u, d) in old(session.devices)
      ensures session.Rows() == Deactivate(old(session.Rows()), u, {d})
    {
      var device := GetByUserAndDevice(u, d);
      found := device.Some?;
      if found {
        session.devices := session.devices[(u, d) := device.value.(isActive := false)];
      }
      assert session.devices == Deactivate(old(session.Rows()), u, {d}).devices;
    }

    method DeactivateAllDevices(u: UserId) returns (count: nat)
      modifies session
      ensures session.Rows() == Deactivate(old(session.Rows()), u, ActiveDevices(old(session.Rows()), u))
      ensures ActiveDevices(session.Rows(), u) == {}
      ensures count == |ActiveDevices(old(session.Rows()), u)|
    {
      hide Deactivate, ActiveDevices;
      var devices := GetActiveDevices(u);
      ghost var before := session.Rows();
      DeactivateNone(before, u);
      DeactivateActive(before, u);
      var rest := devices;
      assert devices - rest == {};
      while rest != {}
        invariant rest <= devices
        invariant session.Rows() == Deactivate(before, u, devices - rest)
        decreases |rest|
      {
        var d :| d in rest;
        DeactivateOneMore(before, u, devices - rest, d);
        assert devices - (rest - {d}) == devices - rest + {d};
        session.devices := session.devices[(u, d) := session.devices[(u, d)].(isActive := false)];
        rest := rest - {d};
      }
      assert devices - rest == devices;
      count := |devices|;
    }
  }

  // A header that was sent and is not empty wins; otherwise the row keeps what it had.
  predicate Wins(given: Option<string>, kept: Option<string>, result: Option<string>) {
    && (given.Some? && given.value != "" ==> result == given)
    && (given == None || given == Some("") ==> result == kept)
  }

  // An upsert touches one row, switches it on, and merges the client's headers into what the row held.
  lemma UpsertMerges(db: DbState, u: UserId, d: DeviceId, client: ClientInfo, now: nat)
    ensures
      var after := UpsertDevice(db, u, d, client, now);
      && (forall p | p in db.devices && p != (u, d) :: p in after.devices && after.devices[p] == db.devices[p])
      && after.devices.Keys == db.devices.Keys + {(u, d)} && after.users == db.users
      && after.devices[(u, d)].isActive && after.devices[(u, d)].lastLoginIp == client.ip
      && after.devices[(u, d)].lastLoginAt == after.devices[(u, d)].lastAccessAt == now
      && ((u, d) in db.devices ==>
            && Wins(client.deviceName, db.devices[(u, d)].deviceName, after.devices[(u, d)].deviceName)
            && Wins(client.osVersion, db.devices[(u, d)].osVersion, after.devices[(u, d)].osVersion)
            && Wins(client.appVersion, db.devices[(u, d)].appVersion, after.devices[(u, d)].appVersion))
  {
  }

  // One turn of the loop of deactivate_all_devices.
  lemma DeactivateOneMore(db: DbState, u: UserId, ids: set<DeviceId>, d: DeviceId)
    requires d in ActiveDevices(db, u)
    ensures (u, d) in Deactivate(db, u, ids).devices
    ensures
      var before := Deactivate(db, u, ids);
      Deactivate(db, u, ids + {d}) ==
        before.(devices := before.devices[(u, d) := before.devices[(u, d)].(isActive := false)])
  {
    var before := Deactivate(db, u, ids);
    assert Deactivate(db, u, ids + {d}).devices ==
      before.devices[(u, d) := before.devices[(u, d)].(isActive := false)];
  }

  lemma DeactivateNone(db: DbState, u: UserId)
    ensures Deactivate(db, u, {}) == db
  {
    assert Deactivate(db, u, {}).devices == db.devices;
  }

  lemma DeactivateActive(db: DbState, u: UserId)
    ensures ActiveDevices(Deactivate(db, u, ActiveDevices(db, u)), u) == {}
    ensures forall d | d in ActiveDevices(db, u) :: (u, d) in db.devices
  {
  }

  lemma OnlyMember<T>(s: set<T>, x: T)
    requires x in s && |s| == 1
    ensures s == {x}
  {
    assert |s - {x}| == 0;
    assert s == (s - {x}) + {x};
  }
}
