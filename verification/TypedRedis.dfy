/** What the token store keeps in Redis, as three typed maps with TTLs. */
module TypedRedis {
  import opened Base

  datatype RtRecord = RtRecord(
    tokenId: Jti, userId: UserId, deviceId: DeviceId, client: StoredClient, issuedAt: nat, expiresAt: nat)

  datatype BlRecord = BlRecord(userId: UserId, deviceId: string, reason: string, revokedAt: nat)

  // A value Redis forgets at an instant.
  datatype Timed<+T> = Timed(value: T, expiry: nat)

  datatype RedisState = RedisState(
    rt: map<(UserId, DeviceId), Timed<RtRecord>>,
    index: map<UserId, set<DeviceId>>,
    blacklist: map<Jti, Timed<BlRecord>>
  )

  const EMPTY := RedisState(map[], map[], map[])

  // Single commands, on typed keys.

  function Indexed(r: RedisState, u: UserId): set<DeviceId> {
    if u in r.index then r.index[u] else {}
  }

  // An empty Redis set does not exist.
  function WithIndex(r: RedisState, u: UserId, ids: set<DeviceId>): RedisState {
    r.(index := if ids == {} then Without(r.index, {u}) else r.index[u := ids])
  }

  function SetRt(r: RedisState, u: UserId, d: DeviceId, entry: Timed<RtRecord>): RedisState {
    r.(rt := r.rt[(u, d) := entry])
  }

  function GetRt(r: RedisState, u: UserId, d: DeviceId, now: nat): Option<RtRecord> {
    if (u, d) in r.rt && now < r.rt[(u, d)].expiry then Some(r.rt[(u, d)].value) else None
  }

  function DropRts(rt: map<(UserId, DeviceId), Timed<RtRecord>>, u: UserId, ids: set<DeviceId>)
    : map<(UserId, DeviceId), Timed<RtRecord>>
  {
    map p | p in rt && !(p.0 == u && p.1 in ids) :: rt[p]
  }

  function DropRt(r: RedisState, u: UserId, d: DeviceId): RedisState {
    r.(rt := DropRts(r.rt, u, {d}))
  }

  function AddIndex(r: RedisState, u: UserId, d: DeviceId): RedisState {
    WithIndex(r, u, Indexed(r, u) + {d})
  }

  function RemoveIndex(r: RedisState, u: UserId, d: DeviceId): RedisState {
    WithIndex(r, u, Indexed(r, u) - {d})
  }

  // The pipeline of delete_all_refresh_tokens: the listed records and the whole index set.
  function Wipe(r: RedisState, u: UserId, ids: set<DeviceId>): RedisState {
    r.(rt := DropRts(r.rt, u, ids), index := Without(r.index, {u}))
  }

  function SetBlacklist(r: RedisState, jti: Jti, entry: Timed<BlRecord>): RedisState {
    r.(blacklist := r.blacklist[jti := entry])
  }

  function Blacklisted(r: RedisState, jti: Jti, now: nat): bool {
    jti in r.blacklist && now < r.blacklist[jti].expiry
  }

  // Whole token-store operations.

  function RtEntry(u: UserId, d: DeviceId, jti: Jti, client: StoredClient, expiresAt: nat, stamp: nat, exec: nat)
    : Timed<RtRecord>
    requires TotalSeconds(expiresAt - stamp) > 0
  {
    Timed(RtRecord(jti, u, d, client, stamp / SECOND, expiresAt / SECOND),
          exec + TotalSeconds(expiresAt - stamp) * SECOND)
  }

  function StoreRefresh(r: RedisState, u: UserId, d: DeviceId, jti: Jti, client: StoredClient,
                        expiresAt: nat, stamp: nat, exec: nat): RedisState
  {
    if TotalSeconds(expiresAt - stamp) <= 0 then r
    else AddIndex(SetRt(r, u, d, RtEntry(u, d, jti, client, expiresAt, stamp, exec)), u, d)
  }

  function DeleteRefresh(r: RedisState, u: UserId, d: DeviceId): RedisState {
    RemoveIndex(DropRt(r, u, d), u, d)
  }

  function DeleteAll(r: RedisState, u: UserId): RedisState {
    Wipe(r, u, Indexed(r, u))
  }

  function Blacklist(r: RedisState, jti: Jti, record: BlRecord, ttl: int, exec: nat): RedisState {
    if ttl <= 0 then r else SetBlacklist(r, jti, Timed(record, exec + ttl * SECOND))
  }
}
