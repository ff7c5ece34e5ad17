# Session protocol: model and proofs

This project models the device-bound session protocol of the FastAPI auth service in `app/` and proves what it
guarantees: who can refresh, who is authenticated, what a logout or a password change undoes, and how the Redis token
store and the database stay in step. `dafny verify dfyconfig.toml` checks everything.

## How the model is built

- **Stores.** Redis is one string-keyed map with expiry instants (`Keyspace.Flat`); `Keyspace.View` reads it as three
  typed maps: refresh-token records per (user, device), a device set per user, a blacklist per token id. The database is
  two tables, users with soft delete and device rows with `is_active` (`Database.DbState`). The signing key is the set of
  payloads it has signed, so a token verifies iff it was signed.
- **Objects.** `TokenStore`, the two repositories, `JwtService`, the three services and the application are classes that
  update these stores in place, with the loops of `delete_all_refresh_tokens` and `deactivate_all_devices`. Each method is
  proved to compute a function of the old state; `Services.App.Request` ties one whole request, commit and rollback
  included, to `Protocol.Step`.
- **Time** is a count of microseconds. A request carries every clock reading it makes (`Base.Timing`): decoding, the Redis
  read, two mintings, the service's own reading, and Redis executing SETEX. Delays between them are arbitrary.
- **Runs.** `Runs.IsRun` is any sequence of whole requests from the empty system under a clock that never goes backwards,
  with fresh UUIDs; any commit may fail. `Log` reads the effect of a request off its log entry, so that the theorems of
  `History`, `AccessTokens`, `Sessions` and `Accounts` speak of the log alone and not of the stores.
- **Commands.** `Commands` cuts a request into single Redis commands with a timestamp each. `CommandRefinement` shows that
  a request running undisturbed, however its commands are timed, is the whole-request step; `Interleaving` and
  `Serialisation` say when mixed requests are whole requests in some order; `Races` and `DeviceSets` say what survives when
  they are not.

| file | what it holds |
|---|---|
| Base, Jwt, TypedRedis | vocabulary, tokens, typed token-store operations |
| Keyspace, TokenStore | string keys, their typed view, the token-store class |
| Database | rows, repositories |
| Protocol, Services | the state machine, the service classes that run it |
| Log, Runs | log entries and their effects, the inductive invariant |
| History, Lifetimes, Witnesses | refresh tokens over runs, concrete runs |
| AccessTokens, Sessions, Accounts | access tokens, the two stores together, accounts |
| Answers, DeviceRows | every response and refusal, and the device list, told from the log |
| Commands, CommandRefinement | requests as Redis commands, each request refined by its own |
| Interleaving, Serialisation | commuting commands, mixed requests as whole requests in order |
| Races, DeviceSets | refresh-token records and device sets when requests of one user overlap |

## Where the code falls short of what one would expect of it

- `store_refresh_token` returns early when less than a whole second of the lifetime is left. Then the old record stands:
  a refresh token is accepted twice. `Lifetimes.RecordedIffPrompt`, `RotationTakesHold` and `SlowRotationRepeats` give the
  exact condition, `Witnesses.DoubleAcceptance` a run.
- The repository's README (line 282) promises that a password change voids access tokens at once. The code does not touch
  the blacklist there (`app/services/user.py:87-88`); the model follows the code. `AccessTokens.OnlyLogoutsRevokeAccess`
  proves that only a logout made with a token revokes it, and `Witnesses.StaleAccess` gives a run.
- A logout may leave its access token valid again for a stretch shorter than one second before `exp`. It does so iff the
  fraction of a second its TTL drops exceeds the delay of the SETEX: `AccessTokens.Reopens`, `LogoutBindsIff`,
  `Witnesses.PassesAfterLogoutIff`; `Witnesses.LogoutGap` gives a run.
- A login whose commit fails leaves a working refresh token on a device the database does not list
  (`Sessions.SandwichStep` says that this is the only way, `Witnesses.OrphanSession` gives a run in which it is used).
- Interleaved requests may both be accepted with one refresh token: the second iff nothing has touched the record since
  the first (`Races.SecondAcceptIff`; `Races.TwoRefreshesAcceptOneToken` gives an interleaving).
- Interleaved requests may leave a record outside the device set. `DeviceSets.CoveredStep` and `CoveredUntilIff` say exactly
  which commands do it, `OrphanNeedsRace` which race of one user is behind each, `NoOverlapKeepsCovered` that without such
  an overlap none does; `LiveOutsideIndex` gives an interleaving of a login and a forced logout.

## Model

| member | source | states |
|---|---|---|
| Keyspace.RtKeyInjective | app/services/token_store.py:27 | distinct (user, device) pairs have distinct keys, for arbitrary device strings |
| Keyspace.RtKeyCollision | app/services/token_store.py:27 | for arbitrary user strings two pairs collide iff the longer user string swallows a colon and a piece of the device |
| Keyspace.NamespacesDisjoint | app/services/token_store.py:97 | no string is a key of two of the three namespaces |
| Keyspace.SetRtSimulates | app/services/token_store.py:45 | SETEX on the flat keyspace is the update of one typed record and nothing else |
| Keyspace.DropRtSimulates | app/services/token_store.py:65 | DEL of a record key removes one typed record and nothing else |
| Keyspace.SetIndexSimulates | app/services/token_store.py:46 | SADD or SREM changes one user's device set and nothing else; an empty set is no key |
| Keyspace.SetBlacklistSimulates | app/services/token_store.py:104 | SETEX of a blacklist key is the update of one typed entry and nothing else |
| Keyspace.WipeSimulates | app/services/token_store.py:73-76 | deleting a user's record keys and the set key removes exactly those typed records and that set |
| TokenStores.Redis.ExecuteDeletes | app/services/token_store.py:72-76 | executing the pipeline removes exactly the queued keys |
| TokenStores.TokenStore.StoreRefreshToken | app/services/token_store.py:16-46 | nothing when less than a second is left, else record with TTL and device added to the set, in the typed view |
| TokenStores.TokenStore.GetRefreshToken | app/services/token_store.py:54-61 | the typed record iff it exists and has not expired |
| TokenStores.TokenStore.DeleteRefreshToken | app/services/token_store.py:63-66 | the record and the set member go, nothing else changes |
| TokenStores.TokenStore.DeleteAllRefreshTokens | app/services/token_store.py:68-79 | the loop and the pipeline remove every indexed record and the set, and return the size of the set |
| TokenStores.TokenStore.BlacklistToken | app/services/token_store.py:86-104 | an entry with user, device, reason, date and the given TTL, or nothing when the TTL is not positive |
| TokenStores.TokenStore.IsTokenBlacklisted | app/services/token_store.py:106-107 | true iff an unexpired entry exists |
| TokenStores.TokenStore.GetActiveDeviceIds | app/services/token_store.py:81-82 | the members of the user's device set |
| Database.UserRepository.GetById | app/repositories/user.py:13-17 | the row iff it exists and is not deleted |
| Database.UserRepository.GetByEmail | app/repositories/user.py:19-23 | none, the one row, or the error on several, among rows not deleted |
| Database.UserRepository.EmailExists | app/repositories/user.py:25-29 | whether a row that is not deleted has the email |
| Database.UserRepository.Create | app/repositories/user.py:31-34 | inserts iff neither the id nor the email occurs in any row, deleted or not; otherwise nothing changes |
| Database.UserRepository.MarkDeleted | app/repositories/user.py:46-49 | sets deleted_at and WITHDRAWN on that row only |
| Database.UserDeviceRepository.Upsert | app/repositories/user_device.py:37-78 | inserts or merges the row and switches it on |
| Database.UserDeviceRepository.DeactivateDevice | app/repositories/user_device.py:80-87 | switches off the row if there is one, and says whether there was |
| Database.UserDeviceRepository.DeactivateAllDevices | app/repositories/user_device.py:89-96 | the loop switches off every active row of the user, no other, and returns their number |
| Database.UpsertMerges | app/repositories/user_device.py:50-75 | one row changes and is switched on and dated now; a non-empty header wins over the old value, an absent or empty one keeps it |
| Jwt.JwtService.CreateAccessToken | app/services/jwt.py:50-75 | the signed payload and the exact expiry |
| Jwt.JwtService.CreateRefreshToken | app/services/jwt.py:77-97 | the signed payload and the exact expiry |
| Jwt.AccessRoundTrip | app/services/jwt.py:99-127 | decode after create restores every field, dates truncated to the second, until the truncated expiry and not after |
| Jwt.RefreshRoundTrip | app/services/jwt.py:129-155 | the same for refresh tokens |
| Jwt.NeverBothKinds | app/services/jwt.py:115-147 | no token is accepted by both decoders |
| Services.Context.CurrentUser | app/dependencies/auth.py:26-50 | decoding, device and blacklist checks, in the order and with the errors of get_current_user |
| Services.AuthService.Signup | app/services/auth.py:44-78 | runs the protocol's signup on the shared stores |
| Services.AuthService.Login | app/services/auth.py:80-186 | runs the protocol's login on the shared stores |
| Services.AuthService.Refresh | app/services/auth.py:188-259 | runs the protocol's refresh on the shared stores |
| Services.AuthService.Logout | app/services/auth.py:261-285 | runs the protocol's logout on the shared stores |
| Services.AuthService.LogoutAll | app/services/auth.py:287-313 | runs the protocol's logout_all on the shared stores |
| Services.UserService.ChangePassword | app/services/user.py:67-88 | runs the protocol's password change on the shared stores |
| Services.UserService.DeleteAccount | app/services/user.py:90-104 | runs the protocol's account deletion on the shared stores |
| Services.DeviceService.GetDevices | app/services/device.py:17-34 | every field of the response for every active device of the user |
| Services.DeviceService.ForceLogoutDevice | app/services/device.py:36-56 | runs the protocol's forced logout on the shared stores |
| Services.App.Request | app/dependencies/database.py:8-15 | one request is one protocol step: rows change only when the handler returned and the commit succeeded |
| Log.StepEffect | app/services/auth.py:44-313 | what a request did to Redis, rows and signatures is determined by its log entry |
| Runs.InvAt | app/services/token_store.py:45-79 | in every reachable state, failing commits included: every record is indexed and its user not withdrawn, token ids are unique, emails are unique, deleted_at is set iff WITHDRAWN |
| History.RecordFollowsLog | app/services/token_store.py:45-66 | a pair has a record iff the log has a mint for it with no kill since, and the record is that mint's |
| History.RecordContents | app/services/token_store.py:33-45 | a record holds the token id, user, device and headers of the request that minted it (OS type "unknown" if a login sent none), and its dates in whole seconds |
| History.SignedFollowsLog | app/services/jwt.py:50-97 | a token was signed iff some logged login or refresh minted it |
| History.RefreshIffCurrent | app/services/auth.py:188-259 | in every run, refresh accepts a token iff it is the latest recorded one of its pair, presented from its device, with no kill since, and neither exp nor TTL passed |
| History.LatestMintedIsCurrent | app/services/auth.py:232-246 | when every mint so far was stored promptly, current means latest minted with no kill since |
| History.ReuseIffSuperseded | app/services/auth.py:212-220 | reuse is reported iff an unexpired superseded token is presented from its own device while another is current and live |
| History.PreviousLink | app/services/auth.py:208-246 | an accepted refresh presents exactly what the previous login or accepted refresh of its pair minted |
| History.AcceptedAtMostOnce | app/services/auth.py:208-246 | a token id is accepted a second time only if its first acceptance did not store its successor |
| History.RotationChain | app/services/auth.py:208-246 | accepted refreshes form one chain from the latest login of the pair, with no kill and no other login of the pair in between |
| History.ChainIffUninterrupted | app/services/auth.py:208-246 | the chain is a line: of two accepted refreshes of a pair the earlier is on the way back from the later iff its successor was stored and no kill or login of the pair lies between |
| History.LoginSinceKill | app/services/auth.py:261-313 | after any kill of the pair, acceptance needs a later login of the same pair and descends from it |
| History.ReuseIsFinal | app/services/auth.py:212-220 | after detected reuse every refresh on the pair fails until a login on that pair |
| History.RefreshHorizon | app/services/user.py:67-104 | after logout_all, password change or deletion no earlier refresh token is accepted, and what is accepted descends from a later login |
| AccessTokens.BlacklistFollowsLog | app/services/token_store.py:86-107 | blacklist entries are exactly those of logged logouts, with user, device or "all", reason and date, and none is ever shortened |
| AccessTokens.AccessIffUnrevoked | app/dependencies/auth.py:26-50 | in every run a protected call is authenticated iff its token was minted, matches the device, has not expired, and every logout made with it has run out |
| AccessTokens.RevocationEndBound | app/services/auth.py:268-277 | the revocation end lies in (exp - 1 s, exp] shifted by the delay to SETEX, is exact on whole seconds, and comes before exp iff the dropped fraction exceeds the delay |
| AccessTokens.LogoutBinds | app/services/auth.py:268-277 | after any logout its token passes at most in the last second before exp, and before exp only if that logout reopens, which it never does on a whole second |
| AccessTokens.LogoutBindsIff | app/services/auth.py:268-277 | since the latest logout with it, a token presented from its device passes iff it has not expired and the read is at or after the revocation end, which is before exp iff that logout reopens |
| AccessTokens.OnlyLogoutsRevokeAccess | app/services/user.py:87-88 | no step but a logout made with a token changes what get_current_user says of it |
| AccessTokens.AccessHorizon | app/services/auth.py:287-313 | one access lifetime after a mass revocation, an access token that passes was minted later and descends from a later login |
| Lifetimes.RefreshLifetimeBound | app/services/jwt.py:82-97 | the record's end and exp differ by less than a second plus the SETEX delay, and the earlier lies in (L - 1 s, L] after minting |
| Lifetimes.RecordedIffPrompt | app/services/token_store.py:28-31 | a record is written iff a whole second of the lifetime is left |
| Lifetimes.CurrentTokenLife | app/services/token_store.py:28-45 | a current token is accepted up to one second short of its lifetime and never beyond it |
| Lifetimes.RotationTakesHold | app/services/token_store.py:30-31 | after an accepted refresh the old token stays current iff the successor was not stored |
| Lifetimes.SlowRotationRepeats | app/services/token_store.py:30-31 | the old token is accepted again at once iff the successor was not stored and its own ends have not passed |
| Witnesses.DoubleAcceptance | app/services/token_store.py:30-31 | a run in which one refresh token is accepted twice |
| Witnesses.OrphanSession | app/dependencies/database.py:8-15 | a run in which a login fails to commit, its device has no active row, and its refresh token is accepted |
| Witnesses.PassesAfterLogoutIff | app/services/auth.py:268-277 | in every run that ends in a logout, the next call with that token passes before exp at some instant iff the logout reopens |
| Witnesses.LogoutGap | app/services/auth.py:268-277 | a run whose logout leaves its token to pass again before exp |
| Witnesses.StaleAccess | app/services/user.py:87-88 | a run in which a password change commits and an older access token still passes |
| Sessions.SandwichStep | app/repositories/user_device.py:37-96 | a step keeps device set within active rows iff it is not a recorded login on an inactive device whose commit fails |
| Sessions.SandwichAt | app/repositories/user_device.py:37-96 | as long as commits succeed: records within device set within active rows, and no record of a withdrawn user |
| Sessions.FailureKeepsRows | app/dependencies/database.py:8-15 | a raising handler or commit leaves rows alone and keeps Redis effects; a raising handler touched Redis only on detected reuse, where an error flushing rows after the Redis work counts as a failed commit |
| Sessions.NoOrphanRefresh | app/services/auth.py:222-224 | even with failing commits the missing-user exit of refresh is never taken |
| Sessions.LogoutAllClears | app/services/token_store.py:68-79 | while commits succeed, logout_all leaves no record, set or active row of the user, changes no record, set or row of anyone else, and counts between live records and active rows |
| Sessions.LiveSessionsAreVisible | app/services/device.py:36-56 | without commit failure every device with a record is listed and can be forced out from another device |
| Sessions.ActiveFollowsLog | app/repositories/user_device.py:26-35 | a row is active iff the log has a committed login on the pair with no committed end of session since |
| Sessions.DeviceListFollowsLog | app/services/device.py:17-34 | the list names exactly those devices, each once, and marks the caller's own |
| Accounts.RowFollowsLog | app/repositories/user.py:31-49 | a user row exists iff a committed signup made it, keeps its email and name, and is deleted iff a deletion committed, at that instant |
| Accounts.SignupIffNewEmail | app/services/auth.py:52-78 | signup answers with its id, email and name if no committed signup ever used the email, and with EmailAlreadyExists otherwise |
| Accounts.DeadErrors | app/services/auth.py:120-123 | no request of any run fails on two rows for one email, on a suspended or on a withdrawn account |
| Accounts.PasswordFollowsLog | app/services/user.py:83-85 | the stored hash is that of the password the last committed signup or change set |
| Accounts.LoginIffLastPassword | app/services/auth.py:92-123 | login succeeds iff the account was not deleted and the password is the one set last |
| Accounts.ChangeIffLastPassword | app/services/user.py:67-88 | an authenticated password change answers UserNotFound iff the account was deleted, else CurrentPasswordMismatch iff the current password is not the one set last, else SamePassword iff the new one equals it, else succeeds |
| Accounts.DeletionIffPassword | app/services/user.py:90-104 | an authenticated deletion answers UserNotFound iff the account was deleted, else CurrentPasswordMismatch iff the password is not the one set last, else succeeds |
| Accounts.PreviousPasswordRefused | app/services/user.py:77-85 | after a committed change the replaced password is refused until another change |
| Accounts.WithdrawalIsPermanent | app/services/user.py:102-104 | after a committed deletion no request ever mints a token for the user |
| Answers.LoginNamesAccount | app/services/auth.py:136-186 | a finished login answers with the id, email and name of the account that signed up with the email it gave; every claim of both tokens is fixed by that signup, the call and its clock |
| Answers.RefreshNamesAccount | app/services/auth.py:222-259 | an accepted refresh hands out tokens for the user of its token, with the email and name of that user's signup; every claim is fixed |
| Answers.RefreshAnswers | app/services/auth.py:197-224 | refresh answers SessionExpired iff the token was minted and has expired, a device mismatch with its alert iff it is an unexpired refresh token of another device, and the plain refusal exactly in the cases left |
| Answers.AuthenticationAnswers | app/dependencies/auth.py:34-41 | a protected call answers TokenExpired, DeviceMismatch, TokenRevoked or InvalidToken, each iff a stated condition on the log, and is authenticated otherwise |
| Answers.LogoutAnswers | app/services/auth.py:261-313 | an authenticated logout or logout_all always goes through, the latter with the size of the device set |
| Answers.ForceLogoutAnswers | app/services/device.py:42-56 | an authenticated forced logout refuses the caller's own device, else answers DeviceNotFound iff the log has no session on the target, else succeeds |
| DeviceRows.LatestLoginSets | app/repositories/user_device.py:50-75 | a pair has a row iff it has a committed login; OS type, address and both instants are those of the latest one |
| DeviceRows.HeaderFollowsLog | app/repositories/user_device.py:50-75 | device name, OS version and app version are the last non-empty header among the logins of the pair, or what the first login sent |
| DeviceRows.DeviceListShowsLog | app/services/device.py:17-34 | every field of a listed device is told from the logins of the log in that way |
| CommandRefinement.LoginIsItsCommands | app/services/token_store.py:45-46 | the commands of a login, undisturbed, leave Redis as the whole request does |
| CommandRefinement.RefreshIsItsCommands | app/services/auth.py:208-246 | the same for refresh, with the same verdict in every branch |
| CommandRefinement.LogoutIsItsCommands | app/services/auth.py:271-278 | the same for logout |
| CommandRefinement.LogoutAllIsItsCommands | app/services/auth.py:296-304 | the same for logout_all |
| CommandRefinement.RevocationIsItsCommands | app/services/user.py:67-104 | the same for password change, account deletion, forced logout and device list, refused by their services or not |
| CommandRefinement.RequestIsItsCommands | app/services/token_store.py:45-46 | any request, run undisturbed to its end, however its commands are timed, leaves Redis and answers as its whole-request step |
| CommandRefinement.ProgramsAreSeparate | app/dependencies/auth.py:34-41 | requests of different users test and blacklist different token ids |
| Serialisation.BlockIsAlone | app/services/token_store.py:63-79 | an uninterrupted block of one request's commands in a schedule is that request on its own |
| Interleaving.Commute | app/services/token_store.py:63-79 | commands of different users commute, answers included |
| Interleaving.CrossUserSerialisable | app/services/token_store.py:63-79 | an interleaving in which no two requests of one user overlap ends as the same commands run request by request, in an order that respects real time |
| Serialisation.OrderKeepsRealTime | app/services/token_store.py:63-79 | each request comes once in the serial order, and none ahead of one that was done before it began |
| Serialisation.InterleavedRequestsAreServed | app/services/token_store.py:63-79 | interleaved whole requests, no two of one user overlapping, leave Redis and answer as whole-request steps taken in an order that respects real time |
| Serialisation.InterleavedRequestsStayListed | app/services/token_store.py:45-79 | and once they have finished, every record is in its user's device set |
| Races.OneInterval | app/services/auth.py:208-246 | in every interleaving a token id holds its record for one contiguous interval at most |
| Races.BothGetsBeforeFirstStore | app/services/auth.py:208-246 | if two refreshes accept one token, both GETs precede either SETEX |
| Races.RecordStaysIff | app/services/token_store.py:45-79 | in every interleaving a record is what it was iff no SETEX, DEL or pipeline of its pair came since |
| Races.SecondAcceptIff | app/services/auth.py:208-246 | a second GET with an accepted token accepts iff nothing has touched the record since the first and it has not expired |
| Races.TwoRefreshesAcceptOneToken | app/services/auth.py:208-246 | an interleaving in which two refreshes accept one token |
| DeviceSets.CoveredStep | app/services/token_store.py:45-79 | one command leaves every record listed or about to be listed iff it is not the SREM, or a pipeline not knowing it, of a record nobody is about to list |
| DeviceSets.CoveredUntilIff | app/services/token_store.py:45-79 | over every interleaving that holds exactly as long as no such command came |
| DeviceSets.ListedWhenQuiet | app/services/token_store.py:45-46 | once no SADD is outstanding it means that the device sets list every record |
| DeviceSets.OrphanNeedsRace | app/services/token_store.py:63-79 | behind every such command, another thread stored for the same user between the two commands of the deletion |
| DeviceSets.NoOverlapKeepsCovered | app/services/token_store.py:45-79 | whole requests of which no two of one user overlap never unlist a record |
| DeviceSets.LiveOutsideIndex | app/services/device.py:48-49 | an interleaving of a login and a forced logout, from their first commands to their last, that leaves a live record outside the device set |

## Left out

- FastAPI routing, request schemas, header parsing, exception-to-JSON handlers, middleware, rate limiting: no state of the protocol.
- RSA, key files and PyJWT internals: the signature is ideal. UUIDs are arguments required to be fresh in a run.
- bcrypt: an ideal hash; its 72-byte truncation and the timing of the dummy hash are not modelled.
- JSON encoding of Redis values: records are stored as values.
- Redis eviction, persistence, failover and connection errors; expiry is tested on read at the microsecond.
- Database isolation, collation and flush errors other than the two unique columns of users; a commit may fail.
- Columns no decision or response of the model reads: `created_at`, `updated_at`, the last login of a user row, phone number, marketing flag, push token, numeric row ids, login history.
- Constant response fields (`token_type`, `expires_in`) and the caching of key files in `JWTService`.
- Profile reads and updates, so a name is the one signed up with; password and phone formats, and `AuthEventLogger`, of which only the kind of alert raised by refresh is kept.
- ORM row objects: rows are values in the session's maps, so aliasing of one row object is not captured; a fresh session sees the committed rows.
- Negative configured lifetimes.
- Database.UserDeviceRepository.Upsert: `created_at` and `updated_at` of the row are not kept; no query or response reads them.
- Serialisation.InterleavedRequestsAreServed: rows and signatures are inputs of a request, because two requests of different users share no row the protocol reads, except through email uniqueness at signup.
