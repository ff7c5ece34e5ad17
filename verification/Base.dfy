/** Vocabulary shared by every module: results, identifiers, the clock and the settings. */
module Base {

  datatype Option<+T> = None | Some(value: T)

  datatype Result<+T, +E> = Ok(value: T) | Err(error: E)

  // A user id is the text of a UUID. Only one fact about that text matters: it has no colon.
  type UserId = s: string | ':' !in s witness ""
  type DeviceId = string
  type Jti = string

  // Time is a count of microseconds, as datetime keeps it.
  const SECOND: nat := 1_000_000

  function Without<K, V>(m: map<K, V>, keys: set<K>): map<K, V> {
    map k | k in m && k !in keys :: m[k]
  }

  // The two configured lifetimes, in whole seconds.
  datatype Config = Config(accessSeconds: nat, refreshSeconds: nat)

  const DEFAULT_CONFIG := Config(1800, 2592000)

  // int(delta.total_seconds()): Python's int truncates toward zero.
  function TotalSeconds(delta: int): int {
    if delta >= 0 then delta / SECOND else -((-delta) / SECOND)
  }

  // The instant denoted by a whole-second JWT NumericDate.
  function Instant(seconds: nat): nat {
    seconds * SECOND
  }

  // Every clock reading one request can make, in the order in which it makes them.
  datatype Timing = Timing(
    decode: nat,   // jwt.decode compares exp with the clock
    read: nat,     // the first Redis read
    upsert: nat,   // upsert_device
    mintAt: nat,   // create_access_token
    mintRt: nat,   // create_refresh_token
    stamp: nat,    // the clock the service (or the token store) reads to compute a TTL or a deletion date
    revoke: nat,   // blacklist_token dates its entry
    exec: nat      // Redis executes SETEX
  )
  {
    predicate Ordered() {
      decode <= read <= upsert <= mintAt <= mintRt <= stamp <= revoke <= exec
    }
  }

  // What a client says about itself in its headers, plus its address.
  datatype ClientInfo = ClientInfo(
    deviceName: Option<string>,
    osType: Option<string>,
    osVersion: Option<string>,
    appVersion: Option<string>,
    ip: Option<string>
  )

  // The X-OS-Type header of a login defaults to "unknown".
  function OsType(client: ClientInfo): string {
    if client.osType.Some? then client.osType.value else "unknown"
  }

  // What a refresh-token record keeps of the client.
  datatype StoredClient = StoredClient(
    deviceName: Option<string>, osType: Option<string>, appVersion: Option<string>, ip: Option<string>)

  // AuthEventLogger's suspicious-activity reports are the only visible difference between
  // the places where refresh raises InvalidRefreshTokenError.
  datatype Alert = NoAlert | DeviceMismatchAlert | ReuseAlert

  datatype Error =
    | InvalidCredentials
    | TokenExpired
    | InvalidToken
    | SessionExpired
    | InvalidRefreshToken(alert: Alert)
    | TokenRevoked
    | DeviceMismatch
    | UserNotFound
    | EmailAlreadyExists
    | CurrentPasswordMismatch
    | SamePassword
    | AccountSuspended
    | AccountWithdrawn
    | DeviceNotFound
    | CannotLogoutCurrentDevice
    | MultipleRowsFound   // scalar_one_or_none met two rows
    | MissingClaim        // KeyError on a decoded payload
}
