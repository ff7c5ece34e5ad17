/** What the device list says of a device, told from the headers of the logins in the log. */
module DeviceRows {
  import opened Base
  import opened Database
  import opened Protocol
  import opened Log
  import opened Runs
  import opened History
  import opened AccessTokens
  import opened Sessions

  // The headers a login may leave out or send empty.
  datatype Header = DeviceName | OsVersion | AppVersion

  function Sent(client: ClientInfo, h: Header): Option<string> {
    match h
    case DeviceName => client.deviceName
    case OsVersion => client.osVersion
    case AppVersion => client.appVersion
  }

  function Kept(row: DeviceRow, h: Header): Option<string> {
    match h
    case DeviceName => row.deviceName
    case OsVersion => row.osVersion
    case AppVersion => row.appVersion
  }

  function Shown(info: DeviceInfo, h: Header): Option<string> {
    match h
    case DeviceName => info.deviceName
    case OsVersion => info.osVersion
    case AppVersion => info.appVersion
  }

  predicate NonEmpty(value: Option<string>) {
    value.Some? && value.value != ""
  }

  // ---- The committed logins of a (user, device) pair before entry n ----

  ghost predicate LatestLogin(entries: seq<Entry>, n: nat, k: int, u: UserId, d: DeviceId)
    requires n <= |entries|
  {
    && 0 <= k < n && SwitchesOn(entries[k], u, d)
    && forall j | k < j < n :: !SwitchesOn(entries[j], u, d)
  }

  ghost predicate FirstLogin(entries: seq<Entry>, n: nat, k: int, u: UserId, d: DeviceId)
    requires n <= |entries|
  {
    && 0 <= k < n && SwitchesOn(entries[k], u, d)
    && forall j | 0 <= j < k :: !SwitchesOn(entries[j], u, d)
  }

  predicate Sends(e: Entry, u: UserId, d: DeviceId, h: Header) {
    SwitchesOn(e, u, d) && NonEmpty(Sent(e.call.client, h))
  }

  // Login k is the last that sent the header, and not empty.
  ghost predicate LastSent(entries: seq<Entry>, n: nat, k: int, u: UserId, d: DeviceId, h: Header)
    requires n <= |entries|
  {
    && 0 <= k < n && Sends(entries[k], u, d, h)
    && forall j | k < j < n :: !Sends(entries[j], u, d, h)
  }

  // The last non-empty value sent by a login of the pair, or what the first of them sent if all sent none.
  ghost predicate HeaderIs(entries: seq<Entry>, n: nat, u: UserId, d: DeviceId, h: Header, value: Option<string>)
    requires n <= |entries|
  {
    || (exists k :: LastSent(entries, n, k, u, d, h) && Sends(entries[k], u, d, h)
                    && value == Sent(entries[k].call.client, h))
    || ((forall k :: !LastSent(entries, n, k, u, d, h))
        && exists k :: FirstLogin(entries, n, k, u, d) && SwitchesOn(entries[k], u, d)
                       && value == Sent(entries[k].call.client, h))
  }

  // What each login of the pair sets anew; an absent X-OS-Type header counts as "unknown".
  predicate SetBy(row: DeviceRow, e: Entry)
    requires e.call.LoginCall?
  {
    && row.osType == (if e.call.client.osType.None? then "unknown" else e.call.client.osType.value)
    && row.lastLoginIp == e.call.client.ip
    && row.lastLoginAt == e.t.upsert && row.lastAccessAt == e.t.upsert
  }

  // ---- One entry ----

  lemma UpsertedRow(db: DbState, u: UserId, d: DeviceId, e: Entry, h: Header)
    requires e.call.LoginCall?
    ensures
      var row := Upserted(db, u, d, e.call.client, e.t.upsert);
      && SetBy(row, e)
      && Kept(row, h) ==
        if (u, d) in db.devices && !NonEmpty(Sent(e.call.client, h)) then Kept(db.devices[(u, d)], h)
        else Sent(e.call.client, h)
  {
  }

  // Other logins leave the row of the pair alone, and ends of sessions leave all of it but is_active.
  predicate RowChanges(e: Entry, before: map<(UserId, DeviceId), DeviceRow>, after: map<(UserId, DeviceId), DeviceRow>,
                       u: UserId, d: DeviceId, h: Header)
  {
    var p := (u, d);
    && (p in after <==> p in before || SwitchesOn(e, u, d))
    && (SwitchesOn(e, u, d) ==>
          && SetBy(after[p], e)
          && Kept(after[p], h) ==
            if p in before && !NonEmpty(Sent(e.call.client, h)) then Kept(before[p], h) else Sent(e.call.client, h))
    && (p in before && !SwitchesOn(e, u, d) ==> after[p] == before[p].(isActive := after[p].isActive))
  }

  lemma EntryChangesRow(cfg: Config, e: Entry, db: DbState, u: UserId, d: DeviceId, h: Header)
    requires e.Committed()
    ensures RowChanges(e, db.devices, ApplyDevices(e, db), u, d, h)
  {
    if e.call.LoginCall? {
      UpsertedRow(db, u, d, e, h);
      hide Upserted, Kept, Sent, NonEmpty, SetBy;
    } else {
      KillSwitchesOff(cfg, e, db);
      hide ApplyDevices, EffectOf, ActiveDevices;
    }
  }

  lemma RowStep(cfg: Config, run: Run, n: nat, u: UserId, d: DeviceId, h: Header)
    requires IsRun(cfg, run) && n < |run.entries|
    ensures RowChanges(run.entries[n], run.worlds[n].db.devices, run.worlds[n + 1].db.devices, u, d, h)
  {
    var e, db := run.entries[n], run.worlds[n].db;
    StepAtEffect(cfg, run, n);
    if e.Committed() {
      EntryChangesRow(cfg, e, db, u, d, h);
      hide RowChanges;
    }
    hide IsRun, Step, Inv, Fresh, EffectOf, Apply, ApplyUsers, ApplyDevices, ApplyBlacklist;
  }

  // ---- Rows follow the log ----

  // A pair has a row iff it has a committed login, and the row holds what the latest one set.
  lemma {:induction false} LatestLoginSets(cfg: Config, run: Run, n: nat, u: UserId, d: DeviceId)
    requires IsRun(cfg, run) && n < |run.worlds|
    ensures (u, d) in run.worlds[n].db.devices <==> exists k :: LatestLogin(run.entries, n, k, u, d)
    ensures forall k | LatestLogin(run.entries, n, k, u, d) ::
      SwitchesOn(run.entries[k], u, d) && SetBy(run.worlds[n].db.devices[(u, d)], run.entries[k])
  {
    if n > 0 {
      var m := n - 1;
      LatestLoginSets(cfg, run, m, u, d);
      RowStep(cfg, run, m, u, d, DeviceName);
      hide IsRun, SwitchesOn;
      if SwitchesOn(run.entries[m], u, d) {
        assert LatestLogin(run.entries, n, m, u, d);
      } else {
        if k :| LatestLogin(run.entries, m, k, u, d) {
          assert LatestLogin(run.entries, n, k, u, d);
        }
        forall k | LatestLogin(run.entries, n, k, u, d) ensures LatestLogin(run.entries, m, k, u, d) {
        }
      }
    }
  }

  // An entry that sends nothing for the header leaves its value as it was.
  lemma HeaderStays(entries: seq<Entry>, m: nat, n: nat, u: UserId, d: DeviceId, h: Header, value: Option<string>)
    requires n == m + 1 <= |entries| && HeaderIs(entries, m, u, d, h, value) && !Sends(entries[m], u, d, h)
    ensures HeaderIs(entries, n, u, d, h, value)
  {
    forall k ensures LastSent(entries, n, k, u, d, h) <==> LastSent(entries, m, k, u, d, h) {
    }
    hide NonEmpty, Sent, LastSent;
    if k :| FirstLogin(entries, m, k, u, d) {
      assert FirstLogin(entries, n, k, u, d);
    }
  }

  lemma {:induction false} NoRowNoLogin(cfg: Config, run: Run, n: nat, u: UserId, d: DeviceId)
    requires IsRun(cfg, run) && n < |run.worlds| && (u, d) !in run.worlds[n].db.devices
    ensures forall j | 0 <= j < n :: !SwitchesOn(run.entries[j], u, d)
  {
    if n > 0 {
      RowStep(cfg, run, n - 1, u, d, DeviceName);
      NoRowNoLogin(cfg, run, n - 1, u, d);
      hide IsRun, SwitchesOn;
    }
  }

  // An upsert keeps a header until a login sends another one that is not empty.
  lemma {:induction false} HeaderFollowsLog(cfg: Config, run: Run, n: nat, u: UserId, d: DeviceId, h: Header)
    requires IsRun(cfg, run) && n < |run.worlds| && (u, d) in run.worlds[n].db.devices
    ensures HeaderIs(run.entries, n, u, d, h, Kept(run.worlds[n].db.devices[(u, d)], h))
  {
    if n > 0 {
      var m := n - 1;
      var before := run.worlds[m].db.devices;
      RowStep(cfg, run, m, u, d, h);
      if (u, d) in before {
        HeaderFollowsLog(cfg, run, m, u, d, h);
        if Sends(run.entries[m], u, d, h) {
          assert LastSent(run.entries, n, m, u, d, h);
        } else {
          HeaderStays(run.entries, m, n, u, d, h, Kept(before[(u, d)], h));
        }
      } else {
        NoRowNoLogin(cfg, run, m, u, d);
        assert FirstLogin(run.entries, n, m, u, d);
        if Sends(run.entries[m], u, d, h) {
          assert LastSent(run.entries, n, m, u, d, h);
        }
      }
      hide IsRun, SwitchesOn;
    }
  }

  // ---- The device list ----

  lemma DescribesRow(w: World, u: UserId, current: DeviceId, info: DeviceInfo, h: Header)
    requires info in ListDevices(w, u, current)
    ensures (u, info.deviceId) in w.db.devices
    ensures
      var row := w.db.devices[(u, info.deviceId)];
      && Shown(info, h) == Kept(row, h) && info.osType == row.osType && info.ip == row.lastLoginIp
      && info.lastLoginAt == row.lastLoginAt && info.lastAccessAt == row.lastAccessAt
  {
    var d :| d in ActiveDevices(w.db, u) && info == Describe(w.db, u, d, current);
  }

  // Of a listed device the list shows the headers and instants of its latest committed login, and, for each header
  // a login may leave out, the last non-empty value, or what the first login sent.
  lemma DeviceListShowsLog(cfg: Config, run: Run, n: nat, info: DeviceInfo, h: Header)
    requires IsRun(cfg, run) && n < |run.entries|
    requires run.entries[n].call.ListDevicesCall? && Authenticated(run.entries[n])
    requires run.entries[n].outcome.Done? && run.entries[n].outcome.response.DeviceList?
    requires info in run.entries[n].outcome.response.devices
    ensures
      var u := run.entries[n].call.token.sub;
      && HeaderIs(run.entries, n, u, info.deviceId, h, Shown(info, h))
      && exists k ::
        && LatestLogin(run.entries, n, k, u, info.deviceId) && run.entries[k].call.LoginCall?
        && var client := run.entries[k].call.client;
        && info.osType == (if client.osType.None? then "unknown" else client.osType.value)
        && info.ip == client.ip
        && info.lastLoginAt == info.lastAccessAt == run.entries[k].t.upsert
  {
    var e, w := run.entries[n], run.worlds[n];
    var u := e.call.token.sub;
    ListedAre(cfg, run, n);
    DescribesRow(w, u, e.call.device, info, h);
    LatestLoginSets(cfg, run, n, u, info.deviceId);
    HeaderFollowsLog(cfg, run, n, u, info.deviceId, h);
    hide IsRun, LatestLogin, HeaderIs, Kept, Shown;
    var k :| LatestLogin(run.entries, n, k, u, info.deviceId);
    assert SwitchesOn(run.entries[k], u, info.deviceId);
  }
}
