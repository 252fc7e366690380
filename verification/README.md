# Token store and space creation of the API-security sample, in Dafny

This project models two pieces of the collaboration API's Java server.

- **`DatabaseTokenStore`** keeps session tokens in the `tokens` table.
  The table is keyed by the Base64url-encoded SHA-256 digest of the token id
  handed to the client. It supports `create`, `read`, `revoke` and the
  periodic `deleteExpiredTokens` sweep. Here the table is an immutable map
  from digest to row `(user, expiry, attributes)`, and each operation is a
  pure function from table to table.
- **`SpaceController.createSpace`** checks the request body's `name` and
  `owner`. It then takes the next value of `space_id_seq`, inserts one
  `spaces` row and answers 201 with `Location: /spaces/<id>`. Here the
  database is a value holding the spaces table, the permissions table and
  the sequence's next value.

Modules:

- `Wrappers`: `Option` and `Result`.
- `IdentityHash`: the digest used as storage key and the random id generator.
  SHA-256 and Base64url are caller-supplied functions (`Primitives`).
  `SecureRandom` is a stream of bytes. `Sound` names what the proofs assume
  of them: 32-byte digests and a lossless encoder. SHA-256 collisions are not
  excluded; a property that needs two ids to have different keys requires
  their digests to differ.
- `DatabaseTokenStore`: the token table and its four operations.
- `Decimal`: Java's rendering of a `long` in a string concatenation, and its inverse.
- `SpaceController`: the owner pattern, the name-length rule in UTF-16 code units, and `createSpace`.

Two behaviours of the code are worth knowing:

- `read` does not check expiry. An expired row is returned until the sweep removes it.
- `createSpace` inserts no permission row for the owner, so no `rwd` row
  exists for the new space. A WARNING comment above the insert
  (SpaceController.java:25-26) says that line contains a security
  vulnerability without naming it. `OwnerGetsNoPermission` states that after
  the call no permission row mentions the new space.

## Model

| member | source | states |
|---|---|---|
| IdentityHash.Hash | src/main/java/com/manning/apisecurityinaction/token/DatabaseTokenStore.java:72-75 | the storage key of a token id is the Base64url encoding of its SHA-256 digest |
| IdentityHash.RandomId | src/main/java/com/manning/apisecurityinaction/token/DatabaseTokenStore.java:24-28 | an id consumes exactly 20 bytes (160 bits) of the random stream and leaves the remainder for later draws |
| IdentityHash.RandomIdEncodesDraw | src/main/java/com/manning/apisecurityinaction/token/DatabaseTokenStore.java:24-28 | two generated ids are equal exactly when the 20 bytes drawn for them are equal |
| IdentityHash.DigestIsNeverAnId | src/main/java/com/manning/apisecurityinaction/token/DatabaseTokenStore.java:72-75 | a storage key (encoding of a 32-byte digest) never equals a generated id (encoding of 20 bytes) |
| IdentityHash.HashInjective | src/main/java/com/manning/apisecurityinaction/token/DatabaseTokenStore.java:72-75 | two token ids share a storage key exactly when their SHA-256 digests are equal |
| DatabaseTokenStore.Create | src/main/java/com/manning/apisecurityinaction/token/DatabaseTokenStore.java:30-41 | succeeds iff the digest of the fresh id is not yet a key (duplicate key is an error); on success it returns the raw id and adds exactly one row, under the digest, holding the token's user, expiry and attributes, leaving the other rows unchanged |
| DatabaseTokenStore.Read | src/main/java/com/manning/apisecurityinaction/token/DatabaseTokenStore.java:43-48 | finds a token exactly when the digest of the presented id is a key, and the token carries that row's fields; unknown ids give empty |
| DatabaseTokenStore.ReadToken | src/main/java/com/manning/apisecurityinaction/token/DatabaseTokenStore.java:50-60 | copying the JSON attributes key by key into an empty map rebuilds the stored attribute map exactly, with the row's user and expiry |
| DatabaseTokenStore.Revoke | src/main/java/com/manning/apisecurityinaction/token/DatabaseTokenStore.java:62-66 | removes the key for the presented id's digest and no other; the remaining rows are unchanged |
| DatabaseTokenStore.DeleteExpired | src/main/java/com/manning/apisecurityinaction/token/DatabaseTokenStore.java:68-70 | keeps exactly the rows whose expiry is not before now, each unchanged |
| DatabaseTokenStore.ReadAfterCreate | src/main/java/com/manning/apisecurityinaction/token/DatabaseTokenStore.java:30-59 | reading the id returned by create gives back the same user, expiry and attributes |
| DatabaseTokenStore.CreateKeepsOtherTokens | src/main/java/com/manning/apisecurityinaction/token/DatabaseTokenStore.java:35-38 | creating a token does not change what any previously readable id reads |
| DatabaseTokenStore.ReadAfterRevoke | src/main/java/com/manning/apisecurityinaction/token/DatabaseTokenStore.java:43-66 | after revoking an id, reading it gives empty |
| DatabaseTokenStore.RevokeIdempotent | src/main/java/com/manning/apisecurityinaction/token/DatabaseTokenStore.java:62-66 | revoking twice leaves the table as revoking once |
| DatabaseTokenStore.RevokeUnknownIsNoOp | src/main/java/com/manning/apisecurityinaction/token/DatabaseTokenStore.java:62-66 | revoking an id that reads as empty leaves the table unchanged |
| DatabaseTokenStore.RevokeKeepsOtherTokens | src/main/java/com/manning/apisecurityinaction/token/DatabaseTokenStore.java:62-66 | revoking one id leaves unchanged the reading of every other id whose SHA-256 digest differs |
| DatabaseTokenStore.RevokeUndoesCreate | src/main/java/com/manning/apisecurityinaction/token/DatabaseTokenStore.java:30-66 | revoking the id create returned restores the table exactly as it was before create |
| DatabaseTokenStore.ReadAfterSweep | src/main/java/com/manning/apisecurityinaction/token/DatabaseTokenStore.java:43-70 | after the sweep an id reads back iff it read back before with an expiry not before now |
| DatabaseTokenStore.SweepsCompose | src/main/java/com/manning/apisecurityinaction/token/DatabaseTokenStore.java:68-70 | sweeping at an earlier and a later instant, in either order, equals one sweep at the later instant |
| DatabaseTokenStore.SweepIdempotent | src/main/java/com/manning/apisecurityinaction/token/DatabaseTokenStore.java:68-70 | sweeping again at the same instant removes nothing more |
| DatabaseTokenStore.CreateKeepsKeysDigests | src/main/java/com/manning/apisecurityinaction/token/DatabaseTokenStore.java:35-38 | if every key is some id's digest before create, it still is after |
| DatabaseTokenStore.RevokeKeepsKeysDigests | src/main/java/com/manning/apisecurityinaction/token/DatabaseTokenStore.java:63-66 | revoke keeps every key a digest |
| DatabaseTokenStore.SweepKeepsKeysDigests | src/main/java/com/manning/apisecurityinaction/token/DatabaseTokenStore.java:68-70 | the sweep keeps every key a digest |
| DatabaseTokenStore.GeneratedIdNeverStored | src/main/java/com/manning/apisecurityinaction/token/DatabaseTokenStore.java:24-38 | a freshly generated id is never a key of a table whose keys are digests |
| DatabaseTokenStore.CreateNeverStoresRawId | src/main/java/com/manning/apisecurityinaction/token/DatabaseTokenStore.java:30-41 | after create, the raw id returned to the client is not a key of the table |
| Decimal.IntToString | src/main/java/com/manning/apisecurityinaction/controller/SpaceController.java:31-34 | the rendering of a space id is non-empty, starts with a minus sign exactly when the id is negative and is otherwise all digits |
| Decimal.ParseNatRoundTrip | src/main/java/com/manning/apisecurityinaction/controller/SpaceController.java:31 | the digits of a non-negative id parse back to that id |
| Decimal.IntToStringRoundTrip | src/main/java/com/manning/apisecurityinaction/controller/SpaceController.java:31 | the decimal rendering of any long, sign included, parses back to it |
| Decimal.IntToStringInjective | src/main/java/com/manning/apisecurityinaction/controller/SpaceController.java:31 | two ids render to the same string exactly when they are equal |
| SpaceController.GetString | src/main/java/com/manning/apisecurityinaction/controller/SpaceController.java:13-17 | the string stored under a key of the request body, absent when the key is missing or holds a non-string value |
| SpaceController.Utf16LengthAppend | src/main/java/com/manning/apisecurityinaction/controller/SpaceController.java:14 | the UTF-16 length of a concatenation is the sum of the parts' lengths, so `String.length()` is a per-character sum of code units |
| SpaceController.Utf16Length | src/main/java/com/manning/apisecurityinaction/controller/SpaceController.java:14 | the UTF-16 length lies between the number of characters and twice it, and equals it iff no character lies outside the Basic Multilingual Plane |
| SpaceController.RepeatsAlphanumericIff | src/main/java/com/manning/apisecurityinaction/controller/SpaceController.java:18 | `[a-zA-Z0-9]{lo,hi}` matches exactly the all-alphanumeric strings of length lo to hi |
| SpaceController.MatchesUsernamePattern | src/main/java/com/manning/apisecurityinaction/controller/SpaceController.java:18 | the whole-string match of the owner pattern accepts exactly the strings of 2 to 30 ASCII alphanumerics whose first character is a letter |
| SpaceController.SpaceUri | src/main/java/com/manning/apisecurityinaction/controller/SpaceController.java:31-34 | the path of a space is "/spaces/" followed by Long.toString of its id, and the id reads back from the part after the prefix |
| SpaceController.CreateSpace | src/main/java/com/manning/apisecurityinaction/controller/SpaceController.java:11-36 | succeeds iff name and owner are strings, the name has at most 255 code units, the owner is valid and the sequence's value is unused; then adds exactly one space row (id, name, owner), leaves permissions unchanged, advances the sequence, and replies 201 with Location equal to uri, "/spaces/" followed by the id, and the input name |
| SpaceController.LongNameRejectedFirst | src/main/java/com/manning/apisecurityinaction/controller/SpaceController.java:13-20 | a name over 255 code units is rejected as too long whatever the owner is, since the name is checked first |
| SpaceController.InvalidOwnerRejected | src/main/java/com/manning/apisecurityinaction/controller/SpaceController.java:17-20 | with an acceptable name, an owner outside the pattern is rejected with an error naming it |
| SpaceController.AcceptedInputSucceeds | src/main/java/com/manning/apisecurityinaction/controller/SpaceController.java:22-29 | on a database whose used ids lie below the sequence, every accepted request succeeds and that property is kept |
| SpaceController.OwnerGetsNoPermission | src/main/java/com/manning/apisecurityinaction/controller/SpaceController.java:25-29 | after a successful call no permission row mentions the new space, so the owner gets none |
| SpaceController.SuccessiveSpacesDistinct | src/main/java/com/manning/apisecurityinaction/controller/SpaceController.java:22-31 | two successful calls in a row draw different ids and reply with different Location paths |
| SpaceController.LocationIdentifiesSpace | src/main/java/com/manning/apisecurityinaction/controller/SpaceController.java:30-34 | the Location path is "/spaces/" followed by a number that reads back as the new id, whose row has the requested owner |

## Left out

- The scheduled executor that runs the sweep every 10 minutes is concurrency. The sweep is an explicit operation taking `now`.
- SHA-256, Base64url, `SecureRandom` and JSON parsing are foreign code. They are parameters, not implementations.
- The attributes column is modelled by the map it encodes. Writing it as a JSON object and parsing it back is taken to be lossless. A Java attribute whose value is `null` (dropped by `JSONObject`) is not modelled.
- Expiry is an integer instant. The model does not cover precision lost by storing an `Instant` in a SQL `TIMESTAMP` column.
- The `Request` and `Response` parameters become inputs and the returned `Reply`. SQL, connections and transactions are not modelled: a transaction is one atomic state update, and a failed call returns no new database.
- The request body is given already parsed. A body that is not valid JSON (a `JSONException` in `new JSONObject`) is not modelled.
- Java strings may hold unpaired surrogates; Dafny characters cannot, so such names and owners are not modelled.
- The space id sequence is an unbounded integer. Exhausting a 64-bit sequence, and a sequence value consumed by a failed insert, are not modelled.
- `Main.java`, HMAC token signing, permission checks, rate limiting, CORS and audit logging are not part of this model.
