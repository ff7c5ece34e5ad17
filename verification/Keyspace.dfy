/**
 The one string-keyed Redis database, and why it behaves as three separate typed maps.

 Each typed key is printed into a string. Refresh-token keys join a user id and an arbitrary device string
 with a colon, so the printing is injective only because user ids hold no colon.
 */
module Keyspace {
  import opened Base
  import opened TypedRedis

  datatype Json = RtJson(rt: RtRecord) | BlJson(bl: BlRecord)

  datatype Entry = Str(json: Timed<Json>) | Members(ids: set<string>)

  type Flat = map<string, Entry>

  const RT := "auth:rt:"
  const DEVICES := "auth:devices:"
  const BLACKLIST := "auth:blacklist:"

  function RtKey(u: string, d: string): string {
    RT + u + ":" + d
  }

  function DevicesKey(u: string): string {
    DEVICES + u
  }

  function BlacklistKey(jti: string): string {
    BLACKLIST + jti
  }

  // ---- Reading keys back ----

  function ColonAt(s: string): (i: nat)
    requires ':' in s
    ensures i < |s| && s[i] == ':' && ':' !in s[..i]
  {
    if s[0] == ':' then 0
    else
      var i := 1 + ColonAt(s[1..]);
      assert s[..i] == [s[0]] + s[1..][..i - 1];
      i
  }

  predicate IsRtKey(k: string) {
    RT <= k && ':' in k[|RT|..]
  }

  function ParseRt(k: string): (p: (UserId, DeviceId))
    requires IsRtKey(k)
    ensures RtKey(p.0, p.1) == k
  {
    var body := k[|RT|..];
    var i := ColonAt(body);
    assert k == RT + body;
    assert body == body[..i] + ":" + body[i + 1..];
    assert RtKey(body[..i], body[i + 1..]) == RT + (body[..i] + ":" + body[i + 1..]);
    (body[..i], body[i + 1..])
  }

  predicate IsDevicesKey(k: string) {
    DEVICES <= k && ':' !in k[|DEVICES|..]
  }

  predicate IsBlacklistKey(k: string) {
    BLACKLIST <= k
  }

  // Parsing undoes printing, whatever colons the device string holds.
  lemma ParsePrinted(u: UserId, d: DeviceId)
    ensures IsRtKey(RtKey(u, d)) && ParseRt(RtKey(u, d)) == (u, d)
  {
    var k := RtKey(u, d);
    var body := k[|RT|..];
    assert k == RT + (u + ":" + d);
    assert body == u + ":" + d;
    assert body[|u|] == ':';
    var i := ColonAt(body);
    assert i >= |u| by {
      if i < |u| {
        assert false;
      }
    }
    assert i <= |u| by {
      if i > |u| {
        assert false;
      }
    }
    assert body[..i] == u && body[i + 1..] == d;
  }

  // Distinct pairs have distinct keys exactly because the user part is colon-free:
  // for arbitrary strings, two pairs collide iff the longer user string swallows a colon and a piece of the device.
  lemma RtKeyInjective(u: UserId, d: DeviceId, v: UserId, e: DeviceId)
    ensures RtKey(u, d) == RtKey(v, e) <==> (u, d) == (v, e)
  {
    ParsePrinted(u, d);
    ParsePrinted(v, e);
  }

  lemma RtKeyCollision(u: string, d: string, v: string, e: string)
    requires |u| <= |v|
    ensures RtKey(u, d) == RtKey(v, e) && (u, d) != (v, e) <==>
            |u| < |v| && u + ":" <= v && d == v[|u| + 1..] + ":" + e
  {
    assert RtKey(u, d)[|RT|..] == u + ":" + d;
    assert RtKey(v, e)[|RT|..] == v + ":" + e;
    assert RtKey(u, d) == RT + (u + ":" + d);
    assert RtKey(v, e) == RT + (v + ":" + e);
    var left, right := u + ":" + d, v + ":" + e;
    if left == right {
      assert left[..|u|] == u == right[..|u|] == v[..|u|];
      assert left[|u|] == ':' == right[|u|];
      if |u| == |v| {
        assert u == v;
        assert left[|u| + 1..] == d && right[|u| + 1..] == e;
      } else {
        assert v[|u|] == ':';
        assert (u + ":") == v[..|u| + 1];
        assert left[|u| + 1..] == d;
        assert right[|u| + 1..] == v[|u| + 1..] + ":" + e;
      }
    }
    if |u| < |v| && u + ":" <= v && d == v[|u| + 1..] + ":" + e {
      assert v == u + ":" + v[|u| + 1..];
      assert left == right;
    }
  }

  lemma DevicesKeyInjective(u: string, v: string)
    ensures DevicesKey(u) == DevicesKey(v) <==> u == v
  {
    assert DevicesKey(u)[|DEVICES|..] == u && DevicesKey(v)[|DEVICES|..] == v;
  }

  lemma BlacklistKeyInjective(i: string, j: string)
    ensures BlacklistKey(i) == BlacklistKey(j) <==> i == j
  {
    assert BlacklistKey(i)[|BLACKLIST|..] == i && BlacklistKey(j)[|BLACKLIST|..] == j;
  }

  lemma NamespacesDisjoint(k: string)
    ensures IsRtKey(k) ==> !IsDevicesKey(k) && !IsBlacklistKey(k)
    ensures IsDevicesKey(k) ==> !IsBlacklistKey(k)
  {
    if RT <= k { assert k[5] == RT[5]; }
    if DEVICES <= k { assert k[5] == DEVICES[5]; }
    if BLACKLIST <= k { assert k[5] == BLACKLIST[5]; }
  }

  // ---- The typed view of the flat keyspace ----

  predicate WellTyped(flat: Flat) {
    forall k | k in flat ::
      && (IsRtKey(k) ==> flat[k].Str? && flat[k].json.value.RtJson?)
      && (IsDevicesKey(k) ==> flat[k].Members? && flat[k].ids != {})
      && (IsBlacklistKey(k) ==> flat[k].Str? && flat[k].json.value.BlJson?)
  }

  function RtOf(e: Entry): Timed<RtRecord>
    requires e.Str? && e.json.value.RtJson?
  {
    Timed(e.json.value.rt, e.json.expiry)
  }

  function BlOf(e: Entry): Timed<BlRecord>
    requires e.Str? && e.json.value.BlJson?
  {
    Timed(e.json.value.bl, e.json.expiry)
  }

  ghost function RtPairs(flat: Flat): set<(UserId, DeviceId)> {
    set k | k in flat && IsRtKey(k) :: ParseRt(k)
  }

  ghost function IndexUsers(flat: Flat): set<UserId> {
    set k | k in flat && IsDevicesKey(k) :: k[|DEVICES|..]
  }

  ghost function BlacklistedIds(flat: Flat): set<Jti> {
    set k | k in flat && IsBlacklistKey(k) :: k[|BLACKLIST|..]
  }

  lemma RtDomain(flat: Flat, u: UserId, d: DeviceId)
    ensures (u, d) in RtPairs(flat) <==> RtKey(u, d) in flat
    ensures IsRtKey(RtKey(u, d))
  {
    ParsePrinted(u, d);
  }

  lemma IndexDomain(flat: Flat, u: UserId)
    ensures u in IndexUsers(flat) <==> DevicesKey(u) in flat
    ensures IsDevicesKey(DevicesKey(u))
  {
    assert DevicesKey(u)[|DEVICES|..] == u;
    if u in IndexUsers(flat) {
      var k :| k in flat && IsDevicesKey(k) && k[|DEVICES|..] == u;
      assert k == DEVICES + k[|DEVICES|..];
    }
  }

  lemma BlacklistDomain(flat: Flat, j: Jti)
    ensures j in BlacklistedIds(flat) <==> BlacklistKey(j) in flat
    ensures IsBlacklistKey(BlacklistKey(j))
  {
    assert BlacklistKey(j)[|BLACKLIST|..] == j;
    if j in BlacklistedIds(flat) {
      var k :| k in flat && IsBlacklistKey(k) && k[|BLACKLIST|..] == j;
      assert k == BLACKLIST + k[|BLACKLIST|..];
    }
  }

  ghost function RtView(flat: Flat): (m: map<(UserId, DeviceId), Timed<RtRecord>>)
    requires WellTyped(flat)
    ensures forall p: (UserId, DeviceId) {:trigger p in m} :: p in m <==> RtKey(p.0, p.1) in flat
    ensures forall p: (UserId, DeviceId) {:trigger m[p]} ::
      p in m ==> IsRtKey(RtKey(p.0, p.1)) && m[p] == RtOf(flat[RtKey(p.0, p.1)])
  {
    assert forall p: (UserId, DeviceId) {:trigger p in RtPairs(flat)} ::
        (p in RtPairs(flat) <==> RtKey(p.0, p.1) in flat) && IsRtKey(RtKey(p.0, p.1)) by {
      forall p: (UserId, DeviceId)
        ensures (p in RtPairs(flat) <==> RtKey(p.0, p.1) in flat) && IsRtKey(RtKey(p.0, p.1))
      {
        RtDomain(flat, p.0, p.1);
      }
    }
    map p | p in RtPairs(flat) :: RtOf(flat[RtKey(p.0, p.1)])
  }

  ghost function IndexView(flat: Flat): (m: map<UserId, set<DeviceId>>)
    requires WellTyped(flat)
    ensures forall u: UserId {:trigger u in m} :: u in m <==> DevicesKey(u) in flat
    ensures forall u: UserId {:trigger m[u]} ::
      u in m ==> IsDevicesKey(DevicesKey(u)) && m[u] == flat[DevicesKey(u)].ids
  {
    assert forall u: UserId :: (u in IndexUsers(flat) <==> DevicesKey(u) in flat) && IsDevicesKey(DevicesKey(u)) by {
      forall u: UserId
        ensures (u in IndexUsers(flat) <==> DevicesKey(u) in flat) && IsDevicesKey(DevicesKey(u))
      {
        IndexDomain(flat, u);
      }
    }
    map u | u in IndexUsers(flat) :: flat[DevicesKey(u)].ids
  }

  ghost function BlacklistView(flat: Flat): (m: map<Jti, Timed<BlRecord>>)
    requires WellTyped(flat)
    ensures forall j: Jti {:trigger j in m} :: j in m <==> BlacklistKey(j) in flat
    ensures forall j: Jti {:trigger m[j]} ::
      j in m ==> IsBlacklistKey(BlacklistKey(j)) && m[j] == BlOf(flat[BlacklistKey(j)])
  {
    assert forall j: Jti ::
      (j in BlacklistedIds(flat) <==> BlacklistKey(j) in flat) && IsBlacklistKey(BlacklistKey(j)) by {
      forall j: Jti
        ensures (j in BlacklistedIds(flat) <==> BlacklistKey(j) in flat) && IsBlacklistKey(BlacklistKey(j))
      {
        BlacklistDomain(flat, j);
      }
    }
    map j | j in BlacklistedIds(flat) :: BlOf(flat[BlacklistKey(j)])
  }

  ghost function View(flat: Flat): RedisState
    requires WellTyped(flat)
  {
    RedisState(RtView(flat), IndexView(flat), BlacklistView(flat))
  }

  // A typed map is the view of a namespace when it answers every lookup as the namespace does.

  lemma RtViewIs(flat: Flat, m: map<(UserId, DeviceId), Timed<RtRecord>>)
    requires WellTyped(flat)
    requires forall p: (UserId, DeviceId) {:trigger p in m} :: p in m <==> RtKey(p.0, p.1) in flat
    requires forall p: (UserId, DeviceId) {:trigger m[p]} ::
      p in m ==> IsRtKey(RtKey(p.0, p.1)) && m[p] == RtOf(flat[RtKey(p.0, p.1)])
    ensures RtView(flat) == m
  {
    hide RtKey, IsRtKey, RtView, WellTyped;
  }

  lemma IndexViewIs(flat: Flat, m: map<UserId, set<DeviceId>>)
    requires WellTyped(flat)
    requires forall u: UserId {:trigger u in m} :: u in m <==> DevicesKey(u) in flat
    requires forall u: UserId {:trigger m[u]} ::
      u in m ==> IsDevicesKey(DevicesKey(u)) && m[u] == flat[DevicesKey(u)].ids
    ensures IndexView(flat) == m
  {
    hide DevicesKey, IsDevicesKey, IndexView, WellTyped;
  }

  lemma BlacklistViewIs(flat: Flat, m: map<Jti, Timed<BlRecord>>)
    requires WellTyped(flat)
    requires forall j: Jti {:trigger j in m} :: j in m <==> BlacklistKey(j) in flat
    requires forall j: Jti {:trigger m[j]} ::
      j in m ==> IsBlacklistKey(BlacklistKey(j)) && m[j] == BlOf(flat[BlacklistKey(j)])
    ensures BlacklistView(flat) == m
  {
    hide BlacklistKey, IsBlacklistKey, BlacklistView, WellTyped;
  }

  // ---- Each flat command simulates the typed one ----

  // Two keyspaces that agree on one namespace have the same typed map for it.
  lemma SameRt(flat: Flat, flat': Flat)
    requires WellTyped(flat) && WellTyped(flat')
    requires forall k | IsRtKey(k) :: (k in flat <==> k in flat') && (k in flat ==> flat[k] == flat'[k])
    ensures RtView(flat) == RtView(flat')
  {
    forall p: (UserId, DeviceId) ensures IsRtKey(RtKey(p.0, p.1)) {
      RtDomain(flat, p.0, p.1);
    }
  }

  lemma SameIndex(flat: Flat, flat': Flat)
    requires WellTyped(flat) && WellTyped(flat')
    requires forall k | IsDevicesKey(k) :: (k in flat <==> k in flat') && (k in flat ==> flat[k] == flat'[k])
    ensures IndexView(flat) == IndexView(flat')
  {
    forall u: UserId ensures IsDevicesKey(DevicesKey(u)) {
      IndexDomain(flat, u);
    }
  }

  lemma SameBlacklist(flat: Flat, flat': Flat)
    requires WellTyped(flat) && WellTyped(flat')
    requires forall k | IsBlacklistKey(k) :: (k in flat <==> k in flat') && (k in flat ==> flat[k] == flat'[k])
    ensures BlacklistView(flat) == BlacklistView(flat')
  {
    forall j: Jti ensures IsBlacklistKey(BlacklistKey(j)) {
      BlacklistDomain(flat, j);
    }
  }

  lemma RtSetAt(flat: Flat, flat': Flat, u: UserId, d: DeviceId, entry: Timed<RtRecord>)
    requires WellTyped(flat) && WellTyped(flat')
    requires flat' == flat[RtKey(u, d) := Str(Timed(RtJson(entry.value), entry.expiry))]
    ensures RtView(flat') == RtView(flat)[(u, d) := entry]
  {
    hide RtKey, DevicesKey, BlacklistKey, IsRtKey, IsDevicesKey, IsBlacklistKey;
    hide ParseRt, RtView, IndexView, BlacklistView;
    var m := RtView(flat)[(u, d) := entry];
    forall p: (UserId, DeviceId)
      ensures p in m <==> RtKey(p.0, p.1) in flat'
      ensures p in m ==> IsRtKey(RtKey(p.0, p.1)) && m[p] == RtOf(flat'[RtKey(p.0, p.1)])
    {
      RtDomain(flat, p.0, p.1);
      RtKeyInjective(p.0, p.1, u, d);
    }
    RtViewIs(flat', m);
  }

  function RtKeys(u: UserId, ids: set<DeviceId>): set<string> {
    set d | d in ids :: RtKey(u, d)
  }

  lemma RtKeysHold(u: UserId, ids: set<DeviceId>, v: UserId, e: DeviceId)
    ensures RtKey(v, e) in RtKeys(u, ids) <==> v == u && e in ids
  {
    if RtKey(v, e) in RtKeys(u, ids) {
      var d :| d in ids && RtKey(v, e) == RtKey(u, d);
      RtKeyInjective(v, e, u, d);
    }
  }

  // Records of u on some devices are gone, all other records are as before.
  lemma RtWithout(flat: Flat, flat': Flat, u: UserId, ids: set<DeviceId>)
    requires WellTyped(flat) && WellTyped(flat')
    requires forall k | IsRtKey(k) :: k in flat' <==> k in flat && k !in RtKeys(u, ids)
    requires forall k | k in flat' :: k in flat && flat'[k] == flat[k]
    ensures RtView(flat') == DropRts(RtView(flat), u, ids)
  {
    hide RtKey, DevicesKey, BlacklistKey, IsRtKey, IsDevicesKey, IsBlacklistKey;
    hide ParseRt, RtView, IndexView, BlacklistView;
    var m := DropRts(RtView(flat), u, ids);
    forall p: (UserId, DeviceId)
      ensures p in m <==> RtKey(p.0, p.1) in flat'
      ensures p in m ==> IsRtKey(RtKey(p.0, p.1)) && m[p] == RtOf(flat'[RtKey(p.0, p.1)])
    {
      RtDomain(flat, p.0, p.1);
      RtKeysHold(u, ids, p.0, p.1);
    }
    RtViewIs(flat', m);
  }

  lemma IndexSetAt(flat: Flat, flat': Flat, u: UserId, ids: set<DeviceId>)
    requires WellTyped(flat) && WellTyped(flat')
    requires DevicesKey(u) in flat' <==> ids != {}
    requires ids != {} ==> flat'[DevicesKey(u)] == Members(ids)
    requires forall k | IsDevicesKey(k) && k != DevicesKey(u) ::
      (k in flat' <==> k in flat) && (k in flat ==> flat'[k] == flat[k])
    ensures IndexView(flat') == WithIndex(View(flat), u, ids).index
  {
    hide RtKey, DevicesKey, BlacklistKey, IsRtKey, IsDevicesKey, IsBlacklistKey;
    hide ParseRt, RtView, IndexView, BlacklistView;
    var m := WithIndex(View(flat), u, ids).index;
    forall v: UserId
      ensures v in m <==> DevicesKey(v) in flat'
      ensures v in m ==> IsDevicesKey(DevicesKey(v)) && m[v] == flat'[DevicesKey(v)].ids
    {
      IndexDomain(flat, v);
      DevicesKeyInjective(v, u);
    }
    IndexViewIs(flat', m);
  }

  lemma BlacklistSetAt(flat: Flat, flat': Flat, j: Jti, entry: Timed<BlRecord>)
    requires WellTyped(flat) && WellTyped(flat')
    requires flat' == flat[BlacklistKey(j) := Str(Timed(BlJson(entry.value), entry.expiry))]
    ensures BlacklistView(flat') == BlacklistView(flat)[j := entry]
  {
    hide RtKey, DevicesKey, BlacklistKey, IsRtKey, IsDevicesKey, IsBlacklistKey;
    hide ParseRt, RtView, IndexView, BlacklistView;
    var m := BlacklistView(flat)[j := entry];
    forall i: Jti
      ensures i in m <==> BlacklistKey(i) in flat'
      ensures i in m ==> IsBlacklistKey(BlacklistKey(i)) && m[i] == BlOf(flat'[BlacklistKey(i)])
    {
      BlacklistDomain(flat, i);
      BlacklistKeyInjective(i, j);
    }
    BlacklistViewIs(flat', m);
  }

  lemma SetRtSimulates(flat: Flat, u: UserId, d: DeviceId, entry: Timed<RtRecord>)
    requires WellTyped(flat)
    ensures
      var flat' := flat[RtKey(u, d) := Str(Timed(RtJson(entry.value), entry.expiry))];
      WellTyped(flat') && View(flat') == SetRt(View(flat), u, d, entry)
  {
    hide RtKey, DevicesKey, BlacklistKey, IsRtKey, IsDevicesKey, IsBlacklistKey;
    hide ParseRt, RtView, IndexView, BlacklistView;
    var flat' := flat[RtKey(u, d) := Str(Timed(RtJson(entry.value), entry.expiry))];
    RtDomain(flat, u, d);
    NamespacesDisjoint(RtKey(u, d));
    SameIndex(flat, flat');
    SameBlacklist(flat, flat');
    RtSetAt(flat, flat', u, d, entry);
  }

  lemma DropRtSimulates(flat: Flat, u: UserId, d: DeviceId)
    requires WellTyped(flat)
    ensures WellTyped(Without(flat, {RtKey(u, d)}))
    ensures View(Without(flat, {RtKey(u, d)})) == DropRt(View(flat), u, d)
  {
    hide RtKey, DevicesKey, BlacklistKey, IsRtKey, IsDevicesKey, IsBlacklistKey;
    hide ParseRt, RtView, IndexView, BlacklistView;
    var flat' := Without(flat, {RtKey(u, d)});
    RtDomain(flat, u, d);
    NamespacesDisjoint(RtKey(u, d));
    assert WellTyped(flat');
    SameIndex(flat, flat');
    SameBlacklist(flat, flat');
    assert RtKeys(u, {d}) == {RtKey(u, d)};
    RtWithout(flat, flat', u, {d});
  }

  // SADD and SREM leave a set behind, or no key when the set is empty.
  function SetMembers(flat: Flat, key: string, ids: set<string>): Flat {
    if ids == {} then Without(flat, {key}) else flat[key := Members(ids)]
  }

  lemma SetIndexSimulates(flat: Flat, u: UserId, ids: set<DeviceId>)
    requires WellTyped(flat)
    ensures WellTyped(SetMembers(flat, DevicesKey(u), ids))
    ensures View(SetMembers(flat, DevicesKey(u), ids)) == WithIndex(View(flat), u, ids)
  {
    hide RtKey, DevicesKey, BlacklistKey, IsRtKey, IsDevicesKey, IsBlacklistKey;
    hide ParseRt, RtView, IndexView, BlacklistView;
    var flat' := SetMembers(flat, DevicesKey(u), ids);
    IndexDomain(flat, u);
    NamespacesDisjoint(DevicesKey(u));
    assert WellTyped(flat');
    SameRt(flat, flat');
    SameBlacklist(flat, flat');
    IndexSetAt(flat, flat', u, ids);
  }

  lemma SetBlacklistSimulates(flat: Flat, j: Jti, entry: Timed<BlRecord>)
    requires WellTyped(flat)
    ensures
      var flat' := flat[BlacklistKey(j) := Str(Timed(BlJson(entry.value), entry.expiry))];
      WellTyped(flat') && View(flat') == SetBlacklist(View(flat), j, entry)
  {
    hide RtKey, DevicesKey, BlacklistKey, IsRtKey, IsDevicesKey, IsBlacklistKey;
    hide ParseRt, RtView, IndexView, BlacklistView;
    var flat' := flat[BlacklistKey(j) := Str(Timed(BlJson(entry.value), entry.expiry))];
    BlacklistDomain(flat, j);
    NamespacesDisjoint(BlacklistKey(j));
    SameRt(flat, flat');
    SameIndex(flat, flat');
    BlacklistSetAt(flat, flat', j, entry);
  }

  // Deleting the keys of a set of devices, then the set itself, is the typed Wipe.
  lemma WipeSimulates(flat: Flat, u: UserId, ids: set<DeviceId>)
    requires WellTyped(flat)
    ensures WellTyped(Without(flat, RtKeys(u, ids) + {DevicesKey(u)}))
    ensures View(Without(flat, RtKeys(u, ids) + {DevicesKey(u)})) == Wipe(View(flat), u, ids)
  {
    hide RtKey, DevicesKey, BlacklistKey, IsRtKey, IsDevicesKey, IsBlacklistKey;
    hide ParseRt, RtView, IndexView, BlacklistView;
    var flat' := Without(flat, RtKeys(u, ids) + {DevicesKey(u)});
    assert WellTyped(flat');
    IndexDomain(flat, u);
    NamespacesDisjoint(DevicesKey(u));
    forall k | k in RtKeys(u, ids) ensures IsRtKey(k) && !IsDevicesKey(k) && !IsBlacklistKey(k) {
      var d :| d in ids && k == RtKey(u, d);
      RtDomain(flat, u, d);
      NamespacesDisjoint(k);
    }
    SameBlacklist(flat, flat');
    IndexSetAt(flat, flat', u, {});
    RtWithout(flat, flat', u, ids);
  }
}
