# OAuth 2.0 credential store — a Dafny model of `MongoStorage`

This project models the storage layer of a web2py OAuth 2.0 server. Authorization
codes follow section 4.1 of RFC 6749 and refresh tokens follow section 6. The layer
keeps three MongoDB collections:

- `clients`: client applications, stored under their client id.
- `codes`: authorization codes, stored under the code. Each holds a client id, a user id and an expiry.
- `tokens`: access/refresh token pairs, stored under the refresh token. Each holds a client id, a user id, an access token, both expiries and a scope.

The model has five modules:

- `Records` (records.dfy): the documents, `Option` for `find_one` misses, `Result` for calls that raise TypeError, and `add_seconds_to_date`.
- `Generation` (generation.dfy): the random hash generators, seen as a stream `hashes: nat -> string`, and the generate-and-check loop `FirstFresh`. That loop draws values until one is not already taken.
- `Queries` (queries.dfy): the read-only operations as functions over the collections, plus the lemmas relating them.
- `Storage` (storage.dfy): the class `MongoStorage`. It holds the three collections as maps, the hash stream and the count of values drawn so far. Its methods `AddClient`, `AddCode`, `RemoveCode` and `AddAccessToken` update those fields.
- `Refresh` (refresh.dfy): the guard of `refresh_access_token`, as written and as intended.

Time is whole seconds. Every operation that reads `datetime.now()` takes `now` as a
parameter, so `add_seconds_to_date(now, s)` is `now + s`.

The model follows the code as written; in particular:

- A token whose expiry equals `now` is not yet expired: `expired_access_token` and `expired_refresh_token` compare with `<` (lines 189 and 194). A code, by contrast, is already invalid at that second (line 164).
- No lifetime is checked to be positive (lines 138, 217 and 225).
- Client ids and secrets are drawn with no uniqueness check, so `add_client` can overwrite a stored client (lines 108-111).
- The guard of `refresh_access_token` proceeds only when the refresh token HAS expired (line 249). This is recorded under Findings.

## Model

| member | source | states |
|---|---|---|
| `Records.AddSecondsToDate` | modules/oauth/storage/__init__.py:31-32 | the result lies exactly `seconds` after `date`, so a positive lifetime ends strictly later |
| `Generation.FirstFresh` | modules/oauth/storage/__init__.py:141-144 | the loop stops at the first position from `from` whose value is not taken; every value drawn before it was taken; the value returned is never in the collection checked |
| `Generation.FirstFreshUnique` | modules/oauth/storage/__init__.py:212-215 | where a generate-and-check loop stops is determined by where it starts and what is taken |
| `Storage.MongoStorage.Draw` | modules/oauth/storage/__init__.py:108-109 | one generator call yields the next value of the stream and consumes it |
| `Storage.MongoStorage.AddClient` | modules/oauth/storage/__init__.py:103-116 | returns the next two values as id and secret; saves exactly that secret with the given redirect URI and name under the id, replacing any client there; `get_client_credentials(id)` then returns that record; other clients, codes and tokens are unchanged |
| `Queries.GetClientCredentials` | modules/oauth/storage/__init__.py:123-126 | a record is returned exactly when a client is stored under the id, and it is that client's record |
| `Queries.ExistsClientAsWritten` | modules/oauth/storage/__init__.py:118-121 | `exists_client` as written is true for every id, registered or not |
| `Queries.ExistsClient` | modules/oauth/storage/__init__.py:118-121 | the intended test: true exactly when the client's credentials can be read back |
| `Queries.ExistsClientAsWrittenAdmitsUnknown` | modules/oauth/storage/__init__.py:121 | an id in an empty collection passes the written test and fails the intended one |
| `Storage.MongoStorage.AddCode` | modules/oauth/storage/__init__.py:128-152 | the code was not stored before and is the first fresh value drawn; its record holds the given client and user and expires `lifetime` after `now`; `get_user_id` returns that user; it is valid for its client exactly before `now + lifetime` and never for any other client; clients and tokens are unchanged |
| `Queries.ValidCode` | modules/oauth/storage/__init__.py:154-166 | true iff a record is stored under the code, its client is the queried one, and `now` is strictly before its expiry; a valid code exists and its user id can be read |
| `Queries.ExistsCode` | modules/oauth/storage/__init__.py:168-171 | true iff the code matches under some client, ignoring client binding and expiry |
| `Storage.MongoStorage.RemoveCode` | modules/oauth/storage/__init__.py:173-176 | afterwards the code does not exist and is valid for no client at any time; every other code answers every query as before; nothing else changes |
| `Queries.GetUserId` | modules/oauth/storage/__init__.py:178-184 | returns the stored user exactly when the code is stored for that client, whatever its expiry; otherwise subscripting None raises TypeError |
| `Queries.ExpiredAccessToken` | modules/oauth/storage/__init__.py:186-189 | expired only strictly after `expires_access`; at that second the token is still live |
| `Queries.ExpiredRefreshToken` | modules/oauth/storage/__init__.py:191-194 | raises TypeError exactly when no refresh expiry was saved; otherwise expired only strictly after it |
| `Storage.MongoStorage.AddAccessToken` | modules/oauth/storage/__init__.py:196-235 | the access token is carried by no earlier record; `expires_access = now + access_lifetime`; with no refresh token supplied, a refresh token not stored before is drawn and its expiry is `now + refresh_lifetime`; a supplied refresh token and expiry are stored unchanged; exactly one record is written, under the refresh token, and both lookups find it; with neither a refresh token nor a refresh lifetime it raises TypeError and saves nothing; the unique-access-token invariant is kept |
| `Queries.GetRefreshToken` | modules/oauth/storage/__init__.py:264-267 | a record is returned exactly when one is stored under the refresh token, and it is that record |
| `Queries.GetAccessToken` | modules/oauth/storage/__init__.py:260-262 | a record is returned exactly when some stored record carries the access token, and it is a stored record carrying it |
| `Queries.AccessLookupIsUnique` | modules/oauth/storage/__init__.py:260-267 | when access tokens are unique, the lookup by a record's access token returns that record, the same one the lookup by its refresh token returns |
| `Queries.SaveKeepsWellFormed` | modules/oauth/storage/__init__.py:227-233 | saving a record under its refresh token with an access token no record carried keeps every record under its own refresh token and all access tokens distinct |
| `Queries.SavedDocumentIsFound` | modules/oauth/storage/__init__.py:227-233 | after such a save both lookups return the saved record, and every other refresh token returns what it returned before |
| `Queries.RemoveUndoesAdd` | modules/oauth/storage/__init__.py:147-176 | removing a code just issued, which was not stored before, restores the code collection exactly, so every validity query on that code answers as it did before the issue |
| `Queries.CodeBoundToClient` | modules/oauth/storage/__init__.py:161-166 | a code valid for one client is invalid for every other client, and they cannot read its user id, even before expiry |
| `Queries.ExpiryIsFinal` | modules/oauth/storage/__init__.py:164-194 | a code invalid at some time stays invalid later, and an expired access or refresh token stays expired |
| `Queries.ExpiryBoundaryDiffers` | modules/oauth/storage/__init__.py:164-194 | at the second of expiry a code is already invalid while an access or refresh token is not yet expired |
| `Refresh.RefreshDecisionAsWritten` | modules/oauth/storage/__init__.py:245-258 | the guard as written reissues only a matching record whose refresh token HAS expired |
| `Refresh.RefreshDecision` | modules/oauth/storage/__init__.py:245-258 | the intended guard reissues iff the refresh token is stored for this client, has not expired, and the client's registered secret is the one presented; it reissues the stored record |
| `Refresh.RefreshDenials` | modules/oauth/storage/__init__.py:249-250 | the intended guard denies a wrong secret, an expired refresh token, and a refresh token of another client |
| `Refresh.RefreshGuardInverted` | modules/oauth/storage/__init__.py:249-250 | on a live token with the right secret the written guard denies and the intended one reissues; after expiry it is the other way round |

## Findings

| source | as written | input that shows it | evidently intended | confidence | as-written member | corrected member |
|---|---|---|---|---|---|---|
| modules/oauth/storage/__init__.py:249 | `refresh_access_token` proceeds only if `expired_refresh_token(old_token)` holds | client "app" with secret "secret"; token "rt" whose refresh expiry is 100; the right secret; `now = 50` is denied and `now = 150` is reissued | proceed only while the refresh token has not expired | high; not executed | `Refresh.RefreshDecisionAsWritten` (shown by `Refresh.RefreshGuardInverted`) | `Refresh.RefreshDecision` |
| modules/oauth/storage/__init__.py:121 | `exists_client` compares the cursor returned by `find` with None, which is never equal | empty `clients`, client id "unknown": the result is true | true exactly when a client is stored under the id | high; not executed | `Queries.ExistsClientAsWritten` (shown by `Queries.ExistsClientAsWrittenAdmitsUnknown`) | `Queries.ExistsClient` |

## Left out

- Database plumbing: `OAuthStorage.__init__` and `MongoStorage.connect` (lines 79-100), pymongo and the web2py cache. The collections are the maps of `MongoStorage`, and its constructor starts them empty.
- The hash generators `generate_hash_512` and `generate_hash_sha1` (lines 40-76) use `os.urandom`, base64, SHA-1/SHA-512 and a salt. The model sees only their output, as the stream `hashes`. Only freshness is proved, and it comes from the callers' loops.
- `ObjectId(user_id)` (line 137): user ids are opaque strings. The InvalidId error raised on a malformed id is not modelled.
- Generation.FirstFresh: requires that the stream eventually yields a value not taken. Otherwise the source's `while True` loop never ends, and a terminating model cannot express that.
- Storage.MongoStorage.AddCode: requires the same of the code collection, from the current draw position.
- Storage.MongoStorage.AddAccessToken: requires the same of both loops, each from where it starts. The access-token loop starts at the current draw position. The refresh-token loop runs only when no refresh token is supplied, and starts just after the access-token loop stopped.
- Storage.MongoStorage.AddAccessToken: arguments of the wrong Python type are not modelled (for example a None `access_lifetime`). Only the None `refresh_lifetime` case, reachable through the default arguments, raises.
- `refresh_access_token` (lines 237-258) cannot run as written. It calls the unbound names `get_client_credentials` (line 246) and `expired_refresh_token` (line 249, with two arguments). It reads the undefined `self.config` and `CONFIG_*` (line 253) and the absent key `old_token['refresh_token']` (line 254). The model takes the names as the bound methods and models only the decision and the `(False, False, False)` denial. The reissue itself (lines 251-257) is not modelled.
- Queries.GetAccessToken: when several records carry one access token, MongoDB returns the first in its own order. The model returns any of them. When access tokens are unique, as `AddAccessToken` keeps them, the answer is determined.
- Concurrency: the race between a uniqueness check and the following save is not modelled. Each operation is one atomic step.
- Records.AddSecondsToDate: returns an unbounded integer. `date + timedelta(0, seconds)` (line 32) raises OverflowError once the result passes `datetime.max` (year 9999), or once the `timedelta` exceeds 999999999 days. That error would surface from `add_code` (line 138) and `add_access_token` (lines 217 and 225); the model does not raise it. Float seconds, which `timedelta` accepts, are not modelled either: lifetimes are integers.
- Timestamps are whole seconds, not `datetime` values with microseconds.
