# API-key lifecycle of it315-api-key-v2, in Dafny

This project models the API-key service of the it315-api-key-v2 web application.

- **Keys.** A key is the configured prefix (`sk_live_` by default) followed by the unpadded base64url text of 24 random bytes.
- **Storage.** Only the key's digest and its last four characters are stored, in an `apiKeys` row. An optional `hardwareSpecs` row can hang off the key.
- **Operations.** Keys are issued, listed (non-revoked, newest first), looked up by id, verified by digest (`not_found`, `revoked` or `valid`), and revoked, which is a one-way flag.
- **Routes.** The HTTP handlers around these operations are modelled too:
  - issue, list and revoke (`/api/keys`);
  - the `x-api-key` check (`/api/ping`);
  - two motor-record endpoints (`/api/motors`, `/api/motor-specs`);
  - a validate-and-echo endpoint (`/api/echo`).

Modules, one per file:

| file | module | what it holds |
|---|---|---|
| common.dfy | Common | `Option`, `Result`, `byte`, first-match scan |
| base64url.dfy | Base64Url | unpadded base64url (section 5 of RFC 4648), with decoder and round trip |
| uuid.dfy | Uuid | the 8-4-4-4-12 textual UUID layout (section 3 of RFC 4122) and version-4 ids from 16 random bytes |
| key_codec.dfy | KeyCodec | key generation, `last4`, the prefix setting |
| js.dfy | Js | parsed JSON values, truthiness, `String(x)`, `trim()` |
| schema.dfy | Schema | table rows, column caps, the row an insert creates |
| key_store.dfy | KeyStore | the queries as functions of the tables, and a `Database` class whose methods update them |
| lifecycle.dfy | KeyLifecycle | properties across issue, verify, list and revoke |
| validation.dfy | Validation | the request schemas as parsers returning data or issues |
| http.dfy | Http | responses and status codes |
| keys_route.dfy, ping_route.dfy, motors_route.dfy, motor_specs_route.dfy, echo_route.dfy | one per handler file | the handlers |

How the model represents the system:

- **Tables.** Tables are sequences in a fixed row order. A `limit(1)` lookup without ordering returns the first match in that order. SQL promises no such order: an unordered lookup may return any matching row, and an update may move rows. The lookup functions answer from the first match. The lifecycle results about verifying an issued or revoked key hold under hypotheses that make the matching row unique.
- **The digest.** The digest (SHA-256 in the source) is an arbitrary function `string -> string`. No injectivity is assumed, so issue-then-verify needs the hypothesis that no earlier row carries the same digest.
- **Randomness.** The random bytes behind `randomBytes` and `randomUUID`, and the nanoid id, are parameters. The version-4 layout `randomUUID` gives those bytes is modelled. The clock is a natural-number parameter `now`.
- **Request bodies.** A request body that is not JSON is `None`.

The model follows what the code does, including these behaviours that the code's own messages or imports do not lead one to expect:

- `revokeKey` reports `true` for a key that was already revoked, because the update still matches the row. `DELETE /api/keys` therefore answers 200 for such a key. Its 404 text "API key not found or already revoked" (src/app/api/keys/route.ts:85) suggests otherwise.
- `verifyKey` hashes and looks up the empty text like any other. A missing `x-api-key` header is verified as `""`, with no short-circuit.
- `hashedKey` has no uniqueness constraint (src/server/db/schema.ts:10). In the model, verification sees the first row carrying the digest.
- `insertKey` writes a `name` column that the schema file does not declare. The model keeps it as a column.
- The issuing route imports a `CreateApiKeySchema` (src/app/api/keys/route.ts:4) that the validation file does not define. It is modelled as the name-only check that the route's comment describes, using `CreateKeySchema`'s name rule.

## Model

| member | source | states |
|---|---|---|
| Base64Url.Encode | src/server/keys.ts:10 | the encoding of n bytes has ⌊n/3⌋·4 characters plus 0, 2 or 3 for a remainder of 0, 1 or 2 bytes, and every character is from the URL-safe alphabet |
| Base64Url.DecodeEncode | src/server/keys.ts:10 | decoding the encoding of any byte string gives that byte string back |
| Base64Url.EncodeInjective | src/server/keys.ts:10 | different byte strings have different encodings |
| Uuid.RandomUuid | src/server/keys.ts:32-33 | an id made from 16 random bytes is in the 8-4-4-4-12 hex layout, with version digit 4 and a variant digit among 8, 9, a, b |
| KeyCodec.ConfiguredPrefix | src/server/keys.ts:7 | the prefix is the environment value whenever it is set, even when empty, and `sk_live_` only when it is unset |
| KeyCodec.SliceLast4 | src/server/keys.ts:12 | the result is the final min(4, length) characters of the text |
| KeyCodec.GeneratePlainKey | src/server/keys.ts:9-14 | the key starts with the prefix; the rest decodes back to exactly the random bytes; last4 is the key's final four characters (all of a shorter key) |
| KeyCodec.DefaultKeyShape | src/server/keys.ts:9-13 | with the default prefix and 24 bytes, the key has 40 characters: `sk_live_` then 32 URL-safe characters, and last4 is characters 36 to 39 |
| KeyCodec.DistinctRandomDistinctKeys | src/server/keys.ts:10-11 | different random bytes give different keys under the same prefix |
| Js.Property | src/app/api/motors/routes.ts:7 | a destructured property is defined exactly when the body is an object that has the key, and then it is that key's value |
| Js.ToJsString | src/app/api/motors/routes.ts:36 | `String(x)` leaves a string unchanged |
| Js.SkipForward | src/app/api/motors/routes.ts:36 | the position reached is the first one, from the start, whose character is not whitespace, and every character passed over is whitespace |
| Js.SkipBackward | src/app/api/motors/routes.ts:36 | the position reached is just past the last character before the end that is not whitespace, going no lower than the given bound, and every character passed over is whitespace |
| Js.Trim | src/app/api/motors/routes.ts:36 | the result is a contiguous piece of the input; everything cut off on either side is whitespace; the result neither starts nor ends with whitespace |
| Js.TrimEmptyIffBlank | src/app/api/motors/routes.ts:36-42 | trimming gives the empty string exactly when the input is all whitespace |
| Js.TrimIdempotent | src/app/api/motors/routes.ts:36-42 | trimming twice gives the same result as trimming once |
| Schema.NewKeyRow | src/server/db/schema.ts:12-16 | a new row takes createdAt from the clock, revoked false and no hardware values; it satisfies the column caps exactly when last4 has at most 4 characters |
| KeyStore.SpecsFor | src/server/keys.ts:83 | the spec values joined to a key are exactly those of the spec rows carrying its id, and there are none exactly when no spec row carries it; there is one value per such spec row (CountSpecs of them) |
| KeyStore.JoinKey | src/server/keys.ts:83 | each key contributes one joined row per spec row carrying its id, in spec-row order, or a single row with nulls when it has none |
| KeyStore.LeftJoinRows | src/server/keys.ts:83 | every row of the left join pairs a stored key with one of its spec rows, or with nulls when it has none |
| KeyStore.LeftJoinCovers | src/server/keys.ts:83 | every stored key appears in the left join, whether or not it has spec rows |
| KeyStore.Active | src/server/keys.ts:84 | the filter keeps exactly the joined rows whose key is not revoked, each once: the result has one item per such row |
| KeyStore.SortNewestFirst | src/server/keys.ts:85 | the output is ordered by createdAt descending and is a permutation of the input |
| KeyStore.ListKeys | src/server/keys.ts:65-88 | the listing is newest first; every item shows a stored non-revoked key with one of its joined spec values; the digest is not among the columns |
| KeyStore.ListedAt | src/server/keys.ts:65-88 | every stored non-revoked key is shown by an item of the listing |
| KeyStore.GetKeyDetails | src/server/keys.ts:143-166 | the result is null exactly when no row has the id; otherwise it is that row's columns, revoked or not, digest included, with the key's first spec values |
| KeyStore.VerifyKey | src/server/keys.ts:168-205 | `not_found` exactly when no row carries the digest of the presented text; otherwise the first such row decides: `revoked` exactly when that row is revoked, else valid with that row's id, name and spec values |
| KeyStore.FirstWithHashUnique | src/server/keys.ts:186 | the first row carrying a digest is unique, so verification is determined |
| KeyStore.RevokeWhere | src/server/keys.ts:91-94 | every row with the id becomes revoked; no other row and no other column changes; the length is kept |
| KeyStore.MergeSpecs | src/server/keys.ts:114-121 | each supplied field replaces the stored one, and each field not supplied keeps its stored value |
| KeyStore.UpdateSpecsWhere | src/server/keys.ts:112-122 | every spec row of the key is merged with the update; ids, owners and rows of other keys are unchanged |
| KeyStore.CountSpecs | src/server/keys.ts:104-110 | the count is zero exactly when the key has no spec row |
| KeyStore.UpdateKeepsCounts | src/server/keys.ts:112-122 | an update leaves the number of spec rows of every key unchanged |
| KeyStore.AppendCount | src/server/keys.ts:128-137 | an insert adds one spec row to its own key's count and none to any other key's |
| KeyStore.Database.constructor | src/server/keys.ts:7 | the store starts empty with the configured prefix and the given digest |
| KeyStore.Database.InsertKey | src/server/keys.ts:29-63 | on an id clash, nothing changes; otherwise one key row is appended, holding the key's digest and last4 but not the key itself; a spec row is appended exactly when spec data is given; the plaintext is returned once; the primary-key and cap invariant is kept |
| KeyStore.Database.RevokeKey | src/server/keys.ts:90-97 | the table becomes RevokeWhere(old, id); the result is true exactly when a row with the id existed, revoked or not; the invariant is kept |
| KeyStore.Database.UpdateKeySpecs | src/server/keys.ts:99-141 | the result is always true; the key's spec rows are updated if it has any, otherwise one is inserted; the key never gains a second spec row |
| KeyStore.Database.InsertMotorSpec | src/app/api/motors/routes.ts:33-43 | exactly the given row is appended to the motor table |
| KeyLifecycle.IssueThenVerify | src/server/keys.ts:168-205 | right after storing a key whose digest no earlier row carries, verifying it gives valid with the new id |
| KeyLifecycle.VerifiesAs | src/server/keys.ts:168-205 | verification reports the first row carrying the digest: revoked when it is revoked, else valid with that row's id, name and spec values |
| KeyLifecycle.RevokeKeepsFirstWithHash | src/server/keys.ts:90-97 | revoking changes no digest, so the first row carrying a digest stays the first |
| KeyLifecycle.RevokeThenVerify | src/server/keys.ts:90-97 | when exactly one row carries a plaintext's digest, revoking the id it verifies as makes the same plaintext verify as revoked |
| KeyLifecycle.IssueRevokeVerify | src/server/keys.ts:90-97 | issue, then revoke by id, then verify the handed-out plaintext: the answer is revoked |
| KeyLifecycle.RevokeIsMonotoneAndIdempotent | src/server/keys.ts:90-96 | revoking never clears a revoked flag; revoking twice equals revoking once; the second revoke still finds the row and reports true |
| KeyLifecycle.RevokedKeyNotListed | src/server/keys.ts:84 | after revoking an id, no listed item has that id |
| KeyLifecycle.IssuedKeyListed | src/server/keys.ts:65-88 | a freshly stored key is listed with its id, name, last4 and creation time |
| Validation.NameIssues | src/server/validation.ts:5 | there are no issues exactly when the name is a string of 1 to 256 characters; an empty name gets "Name is required" and an overlong one "Name too long" |
| Validation.NormalizeField | src/server/validation.ts:7-13 | the field becomes undefined exactly when it is absent or empty; any other string is kept unchanged |
| Validation.NormalizeFieldIdempotent | src/server/validation.ts:7-13 | normalising an already normalised field changes nothing |
| Validation.FieldValue | src/server/validation.ts:7-13 | an accepted field yields undefined exactly when it is absent or "", and otherwise the same string |
| Validation.FieldIssues | src/server/validation.ts:7-13 | there are no issues exactly when every field is absent or a string; each issue names one rejected field |
| Validation.ParseHardware | src/server/validation.ts:6-14 | accepted exactly when hardwareSpecs is absent or an object whose fields are all absent or strings; on success, absent stays absent and every column is the normalised field; a non-object is one type issue |
| Validation.ParseCreateKey | src/server/validation.ts:4-15 | accepted exactly when the body is an object with a valid name and acceptable hardwareSpecs; the output carries that name and the normalised hardware; a failure lists the name issues first; a non-object body is one type issue at the root |
| Validation.ParseCreateApiKey | src/app/api/keys/route.ts:12-14 | accepted exactly when the body is an object with a valid name; the output is that name |
| Validation.NameOnlyIsWeaker | src/server/validation.ts:4-15 | whatever CreateKeySchema accepts, the name-only check accepts with the same name; the converse fails only on bad hardwareSpecs |
| Validation.ParseDeleteKey | src/server/validation.ts:17-19 | a keyId is accepted exactly when it has the textual UUID layout, and it is returned unchanged |
| Validation.GeneratedIdsAreDeletable | src/server/validation.ts:17-19 | every id generated for a key passes the delete schema |
| KeysRoute.Mask | src/app/api/keys/route.ts:56 | the masked form is `****` followed by exactly last4 |
| KeysRoute.MaskAll | src/app/api/keys/route.ts:53-58 | one masked item per listed key, in listing order |
| KeysRoute.MaskedFromKeys | src/app/api/keys/route.ts:53-58 | every masked item shows the id, name, creation time and masked last4 of a non-revoked stored key |
| KeysRoute.MaskedCoversKeys | src/app/api/keys/route.ts:53-58 | every non-revoked stored key is shown by some masked item |
| KeysRoute.Get | src/app/api/keys/route.ts:49-69 | status 200; items newest first; each item shows a non-revoked key; each non-revoked key has an item; there is one item per listed key; no digest, plaintext or revoked flag is exposed |
| KeysRoute.Post | src/app/api/keys/route.ts:7-47 | a body that is not JSON gives 500 and changes nothing; a failed name check gives 400 with the issues and changes nothing; otherwise a key is issued without spec data and 201 returns its id, name, plaintext and last4, or an id clash gives 500; spec rows are never written |
| KeysRoute.Delete | src/app/api/keys/route.ts:71-108 | a missing or empty keyId gives 400, and a non-UUID gives 400 with the issue, both changing nothing; otherwise the id is revoked, answering 200 `success: true` exactly when the row exists and 404 otherwise |
| KeysRoute.IssuedKeyShownMasked | src/app/api/keys/route.ts:53-58 | an issued key is listed with a masked form that ends in the last four characters of the plaintext handed out |
| PingRoute.Get | src/app/api/ping/route.ts:5-17 | 401 "not_found" exactly when no row carries the digest of the header (empty when missing); 401 "revoked" exactly when the first such row is revoked; 200 with that row's id otherwise; no other status |
| PingRoute.MissingHeaderIsEmptyKey | src/app/api/ping/route.ts:6 | a missing header is answered exactly as an empty one |
| PingRoute.PingAfterIssue | src/app/api/ping/route.ts:7-17 | presenting a just-issued key, whose digest no earlier row carries, gives 200 with its id |
| PingRoute.PingAfterRevoke | src/app/api/ping/route.ts:10-12 | presenting an issued key after its revocation gives 401 "revoked" |
| MotorsRoute.TrimmedText | src/app/api/motors/routes.ts:36 | the stored name is the trimmed `String(x)` text |
| MotorsRoute.OptionalText | src/app/api/motors/routes.ts:37-42 | a field is null exactly when it is falsy, and otherwise the trimmed `String(x)` text |
| MotorsRoute.WhitespaceStoredAsEmpty | src/app/api/motors/routes.ts:37-42 | a non-empty whitespace-only field is stored as "" and not as null |
| MotorsRoute.StoredTextIsTrimmed | src/app/api/motors/routes.ts:37-42 | a stored optional text has no whitespace at either end, and trimming it again changes nothing |
| MotorsRoute.ParamText | src/app/api/motors/routes.ts:23 | a string id is looked up as itself; arrays and objects match no row |
| MotorsRoute.Post | src/app/api/motors/routes.ts:4-58 | a body that is not JSON, or null, gives 500; a falsy apiKeyId or motorName gives 400; an apiKeyId naming no key, revoked or not, gives 404; all three change nothing; otherwise exactly one trimmed row with the fresh id is appended and returned with 201 |
| MotorsRoute.Get | src/app/api/motors/routes.ts:60-77 | status 200 with every motor row |
| MotorSpecsRoute.OrNull | src/app/api/motor-specs/route.ts:35-40 | a field is null exactly when it is falsy, and otherwise stored exactly as given |
| MotorSpecsRoute.Post | src/app/api/motor-specs/route.ts:6-61 | a body that is not JSON, or null, gives 500; a falsy apiKeyId or name gives 400; both change nothing; otherwise one row with a random UUID, the values as given and falsy fields null is appended with 201, whatever the key table holds |
| MotorSpecsRoute.Get | src/app/api/motor-specs/route.ts:63-74 | status 200 with every motor row |
| MotorSpecsRoute.NormalisationsCompared | src/app/api/motor-specs/route.ts:35-40 | the two motor routes agree on falsy fields and on strings without outer whitespace; a whitespace-only string is kept here but emptied by the trimming route |
| EchoRoute.HardwareJsonField | src/app/api/echo/route.ts:22-29 | each hardware field of the echoed JSON reads back as the stored value, absent when undefined |
| EchoRoute.ParsedIsNormal | src/server/validation.ts:4-15 | parsed data has a valid name and no hardware field equal to "" |
| EchoRoute.HardwareReparses | src/app/api/echo/route.ts:22-29 | normalised hardware data parses back to itself from its JSON form |
| EchoRoute.EchoedDataReparses | src/app/api/echo/route.ts:22-29 | normalised data parses back to itself from its JSON form |
| EchoRoute.Post | src/app/api/echo/route.ts:4-37 | a body that is not JSON gives 500; 200 "Key created!" exactly when CreateKeySchema accepts the body; otherwise 400 "Validation failed" with at least one issue; the echoed data is exactly what CreateKeySchema makes of the body (its name and normalised hardwareSpecs) and parses back to itself; the 400 issues are exactly CreateKeySchema's issues; nothing is stored |
| EchoRoute.EchoIsIdempotent | src/app/api/echo/route.ts:9-29 | posting the echoed data back gets the same answer |

## Left out

- Input and output are not modelled: the HTTP framework, request parsing, logging, the database driver and its connection, and the upload-image route and all UI files.
- SHA-256 and the random sources behind `crypto.randomBytes`, `randomUUID` and `nanoid` are not modelled. The digest is an arbitrary function, and the random bytes and the nanoid id are parameters.
- The only database failure modelled is a primary-key clash when inserting a key. Other failures would give the 500 answers of the handlers. These include connection errors and the varchar caps at insert time.
- src/server/db/schema.ts declares no `hardwareSpecs` or `motorSpecs` table, although src/server/keys.ts:4, src/app/api/motors/routes.ts:18 and src/app/api/motor-specs/route.ts:3 import them. The model assumes these tables have exactly the columns the writing code uses, and that their inserts succeed.
- KeysRoute.Get: the 500 branch for a failing query is not modelled, because the in-memory tables cannot fail.
- KeysRoute.Post: the 500 body's `details` text, which is the message of whatever was thrown, is not modelled.
- MotorsRoute.Post: the message text of thrown errors is not modelled.
- MotorSpecsRoute.Post: the message text of thrown errors is not modelled.
- EchoRoute.Post: the 400 body holds the list of issues, not the nested tree that `format()` builds.
- Validation.NameIssues: lengths are counted in code points, not UTF-16 code units.
- Validation.NameIssues: zod's default messages for type issues are not modelled.
- Validation.ParseDeleteKey: any hex digit is accepted in the version and variant positions, as in recent zod releases.
- Js.ToJsString: JSON numbers are integers, so `String(x)` of a fraction or exponent is not modelled. JSON integers of 2^53 and above parse as doubles, so `String(x)` prints them rounded, and from 1e21 up in exponent form. IntToDecimal prints their exact digits instead.
- MotorsRoute.ParamText: arrays and objects are sent to the database as array or JSON literals. These begin with a brace, so they never equal a generated id. They are modelled as matching no row.
- The `db.select()` in the ping handler (src/app/api/ping/route.ts:8) and the `imageLink` it adds to the 200 body are not modelled. The call is I/O whose result does not affect the decision.
- KeyStore.Database.UpdateKeySpecs: the ORM skipping undefined fields in an update is assumed, not derived, because that library is not part of this model. The assumption includes an update with every field absent: the model treats it as a successful no-op that returns true.
- KeyStore.VerifyKey: the model uses a fixed row order that updates never change, and answers from the first row carrying the digest. SQL promises neither. The digest lookup has no ordering, so with several rows carrying one digest the store may answer from any of them. KeyLifecycle.RevokeThenVerify therefore requires the digest to be carried by one row only.
- KeyStore.ListKeys: SQL leaves the order of rows with equal timestamps open. The model fixes one admissible order.
- Timestamps are natural numbers, and the response `createdAt` is that number, not an ISO string.
- Concurrency, transactions and the window between the key insert and the spec insert of `insertKey` are not modelled.
