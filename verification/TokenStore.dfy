/** The token store: string keys on the outside, three typed maps in its contracts. */
module TokenStores {
  import opened Base
  import opened TypedRedis
  import opened Keyspace

  // The keys a pipeline deletes.
  function Queued(pipe: seq<string>): set<string> {
    set k | k in pipe
  }

  lemma QueuedSnoc(pipe: seq<string>, key: string)
    ensures Queued(pipe + [key]) == Queued(pipe) + {key}
  {
  }

  lemma RtKeysGrow(u: UserId, ids: set<DeviceId>, rest: set<DeviceId>, d: DeviceId)
    requires d in rest && rest <= ids
    ensures RtKeys(u, ids - (rest - {d})) == RtKeys(u, ids - rest) + {RtKey(u, d)}
  {
    hide RtKey;
    assert ids - (rest - {d}) == (ids - rest) + {d};
  }

  // The Redis server, reduced to the commands the store sends.
  class Redis {
    var flat: Flat

    constructor ()
      ensures flat == map[]
    {
      flat := map[];
    }

    method SetEx(key: string, ttl: int, json: Json, now: nat)
      requires ttl > 0
      modifies this
      ensures flat == old(flat)[key := Str(Timed(json, now + ttl * SECOND))]
    {
      flat := flat[key := Str(Timed(json, now + ttl * SECOND))];
    }

    method Get(key: string, now: nat) returns (json: Option<Json>)
      requires key in flat ==> flat[key].Str?
      ensures json ==
        if key in flat && now < flat[key].json.expiry then Some(flat[key].json.value) else None
    {
      json := None;
      if key in flat && now < flat[key].json.expiry {
        json := Some(flat[key].json.value);
      }
    }

    method Delete(key: string)
      modifies this
      ensures flat == Without(old(flat), {key})
    {
      flat := Without(flat, {key});
    }

    method SMembers(key: string) returns (ids: set<string>)
      requires key in flat ==> flat[key].Members?
      ensures ids == IdsAt(flat, key)
    {
      ids := if key in flat then flat[key].ids else {};
    }

    method SAdd(key: string, id: string)
      requires key in flat ==> flat[key].Members?
      modifies this
      ensures flat == SetMembers(old(flat), key, IdsAt(old(flat), key) + {id})
    {
      var ids := SMembers(key);
      flat := flat[key := Members(ids + {id})];
    }

    method SRem(key: string, id: string)
      requires key in flat ==> flat[key].Members?
      modifies this
      ensures flat == SetMembers(old(flat), key, IdsAt(old(flat), key) - {id})
    {
      var ids := SMembers(key);
      if ids - {id} == {} {
        flat := Without(flat, {key});
      } else {
        flat := flat[key := Members(ids - {id})];
      }
    }

    // pipe.execute(): the queued DEL commands run one after another, as one transaction.
    method ExecuteDeletes(pipe: seq<string>)
      modifies this
      ensures flat == Without(old(flat), Queued(pipe))
    {
      for i := 0 to |pipe|
        invariant flat == Without(old(flat), Queued(pipe[..i]))
      {
        Delete(pipe[i]);
        assert pipe[..i + 1] == pipe[..i] + [pipe[i]];
      }
      assert pipe[..|pipe|] == pipe;
    }
  }

  class TokenStore {
    const redis: Redis

    ghost predicate Valid()
      reads redis
    {
      WellTyped(redis.flat)
    }

    ghost function State(): RedisState
      requires Valid()
      reads redis
    {
      View(redis.flat)
    }

    constructor (redis: Redis)
      ensures this.redis == redis
    {
      this.redis := redis;
    }

    method StoreRefreshToken(u: UserId, d: DeviceId, tokenId: Jti, client: StoredClient,
                             expiresAt: nat, stamp: nat, exec: nat)
      requires Valid()
      modifies redis
      ensures Valid()
      ensures State() == StoreRefresh(old(State()), u, d, tokenId, client, expiresAt, stamp, exec)
    {
      hide RtKey, DevicesKey, View, WellTyped, SetMembers, Without;
      var key := RtKey(u, d);
      var ttl := TotalSeconds(expiresAt - stamp);
      if ttl <= 0 {
        return;
      }
      var data := RtRecord(tokenId, u, d, client, stamp / SECOND, expiresAt / SECOND);
      SetRtSimulates(redis.flat, u, d, Timed(data, exec + ttl * SECOND));
      redis.SetEx(key, ttl, RtJson(data), exec);
      SAddSimulates(redis.flat, u, d);
      redis.SAdd(DevicesKey(u), d);
    }

    method GetRefreshToken(u: UserId, d: DeviceId, now: nat) returns (record: Option<RtRecord>)
      requires Valid()
      ensures record == GetRt(State(), u, d, now)
    {
      RtLookup(redis.flat, u, d);
      var data := redis.Get(RtKey(u, d), now);
      record := if data.None? then None else Some(data.value.rt);
    }

    method DeleteRefreshToken(u: UserId, d: DeviceId)
      requires Valid()
      modifies redis
      ensures Valid()
      ensures State() == DeleteRefresh(old(State()), u, d)
    {
      hide RtKey, DevicesKey, View, WellTyped, SetMembers, Without;
      DropRtSimulates(redis.flat, u, d);
      redis.Delete(RtKey(u, d));
      SRemSimulates(redis.flat, u, d);
      redis.SRem(DevicesKey(u), d);
    }

    method DeleteAllRefreshTokens(u: UserId) returns (count: nat)
      requires Valid()
      modifies redis
      ensures Valid()
      ensures State() == DeleteAll(old(State()), u)
      ensures count == |Indexed(old(State()), u)|
    {
      hide RtKey, DevicesKey, View, WellTyped, SetMembers, Without;
      IndexLookup(redis.flat, u);
      var deviceIds := redis.SMembers(DevicesKey(u));
      count := |deviceIds|;
      WipeSimulates(redis.flat, u, deviceIds);
      if count > 0 {
        var pipe: seq<string> := [];
        var rest := deviceIds;
        while rest != {}
          invariant redis.flat == old(redis.flat)
          invariant rest <= deviceIds
          invariant Queued(pipe) == RtKeys(u, deviceIds - rest)
          decreases |rest|
        {
          var d :| d in rest;
          QueuedSnoc(pipe, RtKey(u, d));
          RtKeysGrow(u, deviceIds, rest, d);
          pipe := pipe + [RtKey(u, d)];
          rest := rest - {d};
        }
        assert deviceIds - rest == deviceIds;
        QueuedSnoc(pipe, DevicesKey(u));
        pipe := pipe + [DevicesKey(u)];
        redis.ExecuteDeletes(pipe);
      } else {
        var key := DevicesKey(u);
        assert {key} == RtKeys(u, deviceIds) + {key};
        redis.Delete(key);
      }
      assert redis.flat == Without(old(redis.flat), RtKeys(u, deviceIds) + {DevicesKey(u)});
    }

    method GetActiveDeviceIds(u: UserId) returns (ids: set<DeviceId>)
      requires Valid()
      ensures ids == Indexed(State(), u)
    {
      IndexLookup(redis.flat, u);
      ids := redis.SMembers(DevicesKey(u));
    }

    method BlacklistToken(jti: Jti, u: UserId, d: string, reason: string, ttl: int, revoke: nat, exec: nat)
      requires Valid()
      modifies redis
      ensures Valid()
      ensures State() == Blacklist(old(State()), jti, BlRecord(u, d, reason, revoke / SECOND), ttl, exec)
    {
      hide BlacklistKey, View, WellTyped;
      if ttl <= 0 {
        return;
      }
      var data := BlRecord(u, d, reason, revoke / SECOND);
      SetBlacklistSimulates(redis.flat, jti, Timed(data, exec + ttl * SECOND));
      redis.SetEx(BlacklistKey(jti), ttl, BlJson(data), exec);
    }

    method IsTokenBlacklisted(jti: Jti, now: nat) returns (revoked: bool)
      requires Valid()
      ensures revoked == Blacklisted(State(), jti, now)
    {
      BlacklistLookup(redis.flat, jti);
      var data := redis.Get(BlacklistKey(jti), now);
      revoked := data.Some?;
    }
  }

  // What a raw lookup returns, in typed terms.

  lemma RtLookup(flat: Flat, u: UserId, d: DeviceId)
    requires WellTyped(flat)
    ensures RtKey(u, d) in flat <==> (u, d) in View(flat).rt
    ensures RtKey(u, d) in flat ==>
      && flat[RtKey(u, d)].Str?
      && flat[RtKey(u, d)].json.value.RtJson?
      && View(flat).rt[(u, d)] == RtOf(flat[RtKey(u, d)])
  {
    hide RtView;
    RtDomain(flat, u, d);
    assert (u, d) in RtView(flat) <==> RtKey(u, d) in flat;
  }

  lemma IndexLookup(flat: Flat, u: UserId)
    requires WellTyped(flat)
    ensures DevicesKey(u) in flat ==> flat[DevicesKey(u)].Members?
    ensures Indexed(View(flat), u) == if DevicesKey(u) in flat then flat[DevicesKey(u)].ids else {}
  {
    hide IndexView;
    IndexDomain(flat, u);
    assert u in IndexView(flat) <==> DevicesKey(u) in flat;
  }

  function IdsAt(flat: Flat, key: string): set<string>
    requires key in flat ==> flat[key].Members?
  {
    if key in flat then flat[key].ids else {}
  }

  lemma SAddSimulates(flat: Flat, u: UserId, d: DeviceId)
    requires WellTyped(flat)
    ensures DevicesKey(u) in flat ==> flat[DevicesKey(u)].Members?
    ensures WellTyped(SetMembers(flat, DevicesKey(u), IdsAt(flat, DevicesKey(u)) + {d}))
    ensures View(SetMembers(flat, DevicesKey(u), IdsAt(flat, DevicesKey(u)) + {d})) == AddIndex(View(flat), u, d)
  {
    hide DevicesKey, View, WellTyped;
    IndexLookup(flat, u);
    SetIndexSimulates(flat, u, Indexed(View(flat), u) + {d});
  }

  lemma SRemSimulates(flat: Flat, u: UserId, d: DeviceId)
    requires WellTyped(flat)
    ensures DevicesKey(u) in flat ==> flat[DevicesKey(u)].Members?
    ensures WellTyped(SetMembers(flat, DevicesKey(u), IdsAt(flat, DevicesKey(u)) - {d}))
    ensures View(SetMembers(flat, DevicesKey(u), IdsAt(flat, DevicesKey(u)) - {d})) == RemoveIndex(View(flat), u, d)
  {
    hide DevicesKey, View, WellTyped;
    IndexLookup(flat, u);
    SetIndexSimulates(flat, u, Indexed(View(flat), u) - {d});
  }

  lemma BlacklistLookup(flat: Flat, jti: Jti)
    requires WellTyped(flat)
    ensures BlacklistKey(jti) in flat <==> jti in View(flat).blacklist
    ensures BlacklistKey(jti) in flat ==>
      && flat[BlacklistKey(jti)].Str?
      && flat[BlacklistKey(jti)].json.value.BlJson?
      && View(flat).blacklist[jti] == BlOf(flat[BlacklistKey(jti)])
  {
    hide BlacklistView;
    BlacklistDomain(flat, jti);
    assert jti in BlacklistView(flat) <==> BlacklistKey(jti) in flat;
  }
}
