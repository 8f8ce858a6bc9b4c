# Files-Storage upload handler, modelled in Dafny

This project models the upload endpoint of the Files-Storage backend: the
handler `putFileApi` behind `POST /v1/putFile`, the error codes it answers
with, and the table that turns a code into an HTTP status.

The handler has two halves.

- **Validation and naming.** A strictly ordered chain of guards. The first
  one that fails decides the rejection. The guards check, in order:
  - that there is content, and that it is multipart;
  - that there is a body;
  - the credential (bearer token, `secret` query parameter or `secret`
    body field) against the configured API key;
  - the single file field (a one-part array is unwrapped);
  - that the part has a file name, a MIME type and bytes;
  - the extension derived with Node's `path.extname`;
  - that the declared MIME type and the extension's MIME type agree;
  - the bucket, normalised to lower-case letters a-z.

  An accepted upload becomes a record. The record has the identifier, the
  bucket when there is one, the public URL `/{bucket/}{uuid}.{ext}`, the
  canonical MIME type, the trimmed extension and name, and the size. The
  record is inserted with a positional `INSERT ... VALUES ($1, ..., $n)`
  statement. Its columns are the record's keys in order. The statement is
  modelled by its table, columns, placeholders and values, not by its text.
- **Persistence.** The row is inserted first. Then the bucket directory is
  created if it is missing. Then the blob is written under the storage
  root. A step that fails ends the request, and earlier steps are not
  undone.

Modules:

- `Wrappers`: `Option` and `Result`.
- `JsStrings`: the JavaScript string operations the handler relies on
  (`trim`, `toLowerCase`, `split`, `join`, `replaceAll`, `startsWith`), and
  decimal rendering of numbers.
- `NodePath`: Node's `path.extname`, and `path.join` over normal segments.
- `ClassFields`: the fourteen error codes, `InternalCodeToHTTP`, the
  `IHTTPResponse` union, and the route's status choice.
- `PutFile`: the data model, the guards (`Validate`), the record
  (`Describe`), the insert statement and how the database binds it
  (`InsertStatement`, `Bind`), and the persistence as a function of the
  state before and the outcomes of the external calls (`Persist`,
  `Ingest`).
- `PutFileProperties`: the lemmas about all of the above.
- `PutFileStore`: the class `Server`. It holds the table rows, the
  directories and the files, and its methods update them step by step.
  `PutFile` is proved equal to `Ingest`. `Save` is proved equal to
  `Persist`.

External pieces are parameters:

- The `mime-types` registry is the function field `Env.contentType`.
- `crypto.randomUUID()` is the `uuid` argument. `IsUuidV4` describes the
  text form where a property needs it.
- Whether the database call, `mkdirSync` and `writeFileSync` succeed is the
  `Effects` argument.

### Behaviour of the code worth knowing

- **Failures after the insert.** A failure after the insert answers
  UNHANDLED "Unknown error", not UPSTREAM: `mkdirSync` and `writeFileSync`
  throw, and the `catch` at putFile.ts:121-124 turns that into UNHANDLED.
  `FailureAfterInsertOrphansRow` proves this.
- **Failing to get a connection.** In
  backend/src/modules/postgresConnector.ts, `getData` calls
  `pool.connect()` outside its `try`. A failure to get a connection
  therefore throws into the handler and also answers UNHANDLED. Only a
  failed query answers UPSTREAM "Database error". This is `DbOutcome`:
  `ConnectFailed` versus `QueryFailed`.
- **Dead guards.** Three guards can never fire:
  - `file.length < 0` at line 56. An empty array is not unwrapped, so it
    reaches the file-name guard and answers NULL "Filename is empty"
    (`EmptyArrayHasNoFilename`).
  - `ext == null` at line 71. The extension is always a string.
  - `bucket === ""` at line 80. Line 65 has already turned "" into
    `undefined`.

  The model has no branch for any of them.

## Model

| member | source | states |
|---|---|---|
| ClassFields.CodeValueRoundTrip | backend/src/classfields.ts:1-19 | every code's wire string reads back as that code |
| ClassFields.CodeValueInjective | backend/src/classfields.ts:1-19 | the fourteen wire strings of the two enums are pairwise distinct |
| ClassFields.StatusOfKey | backend/src/classfields.ts:40 | a key missing from the table gets 500 (`?? 500`); every status is one of 400, 401, 403, 404, 418, 500, 502 |
| ClassFields.InternalCodeToHTTP | backend/src/classfields.ts:23-41 | every code maps to a 4xx or 5xx status; a server code maps to 500 or 502 |
| ClassFields.TableIsTotal | backend/src/classfields.ts:24-40 | the table has an entry for every code, so the fallback is never taken |
| ClassFields.TableKeysAreCodes | backend/src/classfields.ts:24-39 | the table's keys are exactly the fourteen wire strings |
| ClassFields.ClientCodeStatuses | backend/src/classfields.ts:25-33 | UNAUTHORIZED 401; FORBIDDEN 403; NOT_FOUND 404; NULL, INVALID_TYPE, INCORRECT, INVEST 400; NETWORK_ERROR 418; UNKNOWN 500 |
| ClassFields.ServerCodeStatuses | backend/src/classfields.ts:34-38 | UPSTREAM, EXTERNAL and EXTERNALAPI get 502; INTERNAL and UNHANDLED get 500 |
| ClassFields.OnlyUnknownClientCodeIs5xx | backend/src/classfields.ts:25-33 | a client code gets a 5xx status exactly when it is UNKNOWN |
| ClassFields.Response.Status | backend/src/classfields.ts:43-67 | the status tag is SUCCESS (1) exactly for a success and ERROR (0) exactly for a failure |
| ClassFields.RouteStatusDistinguishesOutcome | backend/src/web/api/index.ts:16-19 | the route answers 201 exactly for a success; a failure gets its code's status, between 400 and 599 |
| JsStrings.TrimFacts | backend/src/web/api/putFile.ts:70 | `trim` keeps a contiguous slice, drops only white space, and leaves none at either end |
| JsStrings.TrimIdempotent | backend/src/web/api/putFile.ts:81-84 | trimming twice is trimming once |
| JsStrings.TrimEmptyIff | backend/src/web/api/putFile.ts:81 | the trimmed string is empty exactly when the string is all white space |
| JsStrings.TrimOfTrimmed | backend/src/web/api/putFile.ts:84 | a string with no white space at either end is its own trim |
| JsStrings.TrimLowerCommute | backend/src/web/api/putFile.ts:84 | lower-casing then trimming equals trimming then lower-casing |
| JsStrings.LowerIdempotent | backend/src/web/api/putFile.ts:84 | lower-casing twice is lower-casing once |
| JsStrings.LowerOfLowerLetters | backend/src/web/api/putFile.ts:84-85 | a string matching ^[a-z]+$ is its own lower case |
| JsStrings.SplitCount | backend/src/web/api/putFile.ts:40 | `split` yields one more part than there are separators, and no part holds one |
| JsStrings.SplitJoin | backend/src/web/api/putFile.ts:40 | joining the parts of a split with the separator gives the string back |
| JsStrings.SplitAppend | backend/src/web/api/putFile.ts:40 | splitting `a + sep + b` is splitting `a` followed by splitting `b` |
| JsStrings.SplitAtOnlySeparator | backend/src/web/api/putFile.ts:40 | a string with exactly one separator splits into the two sides |
| JsStrings.RemoveAll | backend/src/web/api/putFile.ts:70 | `replaceAll(".", "")` leaves no "."; the result is shorter by exactly the number of "." removed, and every other character occurs in it exactly when it occurs in the input |
| JsStrings.RemoveAllAppend | backend/src/web/api/putFile.ts:70 | removal works piecewise, `RemoveAll(a + b) == RemoveAll(a) + RemoveAll(b)`, so the kept characters stay in their order |
| JsStrings.RemoveAllOfChar | backend/src/web/api/putFile.ts:70 | a single character is removed exactly when it is the pattern, and kept otherwise |
| JsStrings.RemoveAllAbsent | backend/src/web/api/putFile.ts:70 | removing a character that does not occur changes nothing |
| JsStrings.NatToDecimal | backend/src/web/api/putFile.ts:106 | a number renders as a non-empty string of decimal digits |
| JsStrings.DecimalRoundTrip | backend/src/web/api/putFile.ts:106 | reading a rendered number back gives the number |
| JsStrings.DecimalInjective | backend/src/web/api/putFile.ts:106 | distinct numbers render differently |
| NodePath.StripTrailingSlashesFacts | backend/src/web/api/putFile.ts:70 | the result is a prefix of the path that does not end in '/', and every character dropped after it is '/' |
| NodePath.AfterLastSlashHasNoSlash | backend/src/web/api/putFile.ts:70 | the last segment holds no '/' |
| NodePath.AfterLastSlashIsSuffix | backend/src/web/api/putFile.ts:70 | the last segment is a suffix of the path, preceded by '/' unless it is the whole path |
| NodePath.LastIndexOfFacts | backend/src/web/api/putFile.ts:70 | the last '.' is found exactly when there is one, and no '.' follows it |
| NodePath.ExtNameFacts | backend/src/web/api/putFile.ts:70 | `extname` is empty or a '.' followed by text with no '.' and no '/' |
| NodePath.ExtNameOfFileName | backend/src/web/api/putFile.ts:70 | `extname("base.ext")` is ".ext" when base is non-empty, the name is not "..", and ext has no '.' or '/' |
| NodePath.ExtNameOfDotFile | backend/src/web/api/putFile.ts:70 | a dot file such as ".bashrc" has no extension |
| NodePath.ExtNameWithoutDot | backend/src/web/api/putFile.ts:70 | a path without '.' has no extension |
| NodePath.JoinPathsOfThree | backend/src/web/api/putFile.ts:118 | `path.join(root, bucket, name)` skips an empty bucket and otherwise separates the segments with '/' |
| PutFile.FirstTruthy | backend/src/web/api/putFile.ts:41 | an `a \|\| b \|\| undefined` chain never yields the empty string |
| PutFile.NormalizeBucket | backend/src/web/api/putFile.ts:80-89 | no bucket normalises to ""; an accepted bucket matches ^[a-z]+$ |
| PutFile.DerivedExt | backend/src/web/api/putFile.ts:70 | the derived extension never contains '.' |
| PutFileProperties.EmptyContentIsNull | backend/src/web/api/putFile.ts:27-29 | a missing or empty content type, or a content length of "0", answers NULL "Content is empty" whatever else the request holds |
| PutFileProperties.NonMultipartIsInvalidType | backend/src/web/api/putFile.ts:30-36 | present content that is not multipart/form-data answers INVALID_TYPE, before the body and credential checks |
| PutFileProperties.CheckContentCodes | backend/src/web/api/putFile.ts:27-38 | the content guards answer only NULL or INVALID_TYPE |
| PutFileProperties.AuthorizeCodes | backend/src/web/api/putFile.ts:43-48 | the credential guard answers only UNAUTHORIZED or FORBIDDEN |
| PutFileProperties.SelectFileCodes | backend/src/web/api/putFile.ts:50-61 | the file-field guard answers only NULL or INCORRECT |
| PutFileProperties.CheckPartCodes | backend/src/web/api/putFile.ts:63-88 | the part, MIME and bucket guards answer only NULL or INCORRECT |
| PutFileProperties.OutcomeIgnoresAcceptedCredential | backend/src/web/api/putFile.ts:40-88 | once the content and credential guards pass, two requests with the same body and the same bucket input get the same answer, whichever credential each sent and where |
| PutFileProperties.RejectionCodes | backend/src/web/api/putFile.ts:27-88 | every rejection of the chain is NULL, INVALID_TYPE, INCORRECT, UNAUTHORIZED or FORBIDDEN |
| PutFileProperties.RejectionsAreClientErrors | backend/src/web/api/putFile.ts:27-88 | every rejection is a client code and is sent with 400, 401 or 403 |
| PutFileProperties.CredentialPrecedence | backend/src/web/api/putFile.ts:40-41 | the credential is the bearer token, else the `secret` query parameter, else the `secret` body field, with an empty value counting as absent |
| PutFileProperties.BearerTokenOfTwoWords | backend/src/web/api/putFile.ts:40 | a header "scheme token" yields the token, whatever the scheme word is |
| PutFileProperties.BearerTokenOfOtherHeader | backend/src/web/api/putFile.ts:40 | a header that does not split into exactly two words is used whole |
| PutFileProperties.UnauthorizedIffNoCredential | backend/src/web/api/putFile.ts:43-45 | once the content checks pass, the answer is UNAUTHORIZED exactly when no credential is found |
| PutFileProperties.ForbiddenIffWrongCredential | backend/src/web/api/putFile.ts:46-48 | once the content checks pass, the answer is FORBIDDEN exactly when the credential differs from the key |
| PutFileProperties.AuthorizationFollowsContentChecks | backend/src/web/api/putFile.ts:27-48 | UNAUTHORIZED and FORBIDDEN only come after the content checks pass; an accepted upload carried the key |
| PutFileProperties.SeveralFilesAreIncorrect | backend/src/web/api/putFile.ts:53-55 | an array of more than one part answers INCORRECT "Only one file is allowed" |
| PutFileProperties.EmptyArrayHasNoFilename | backend/src/web/api/putFile.ts:56-67 | an empty array is not unwrapped and answers NULL "Filename is empty" |
| PutFileProperties.SingletonArrayIsUnwrapped | backend/src/web/api/putFile.ts:50-61 | a one-part array under the chosen field gives the same outcome as the part alone |
| PutFileProperties.DerivedExtOfFileName | backend/src/web/api/putFile.ts:70 | a trimmed name "base.ext" yields the extension "ext" |
| PutFileProperties.DerivedExtOfDotFile | backend/src/web/api/putFile.ts:70 | a dot file yields the empty extension |
| PutFileProperties.DerivedExtHasNoSlash | backend/src/web/api/putFile.ts:70-97 | the derived and the stored extension hold no '/' and no '.' |
| PutFileProperties.MimeCrossCheck | backend/src/web/api/putFile.ts:73-79 | a part passes the MIME guards exactly when both lookups are defined and equal; their failures are INCORRECT |
| PutFileProperties.AcceptedUpload | backend/src/web/api/putFile.ts:27-89 | an accepted upload passed every guard in order: its MIME type is the extension's, its extension has no '.', and its bucket is "" exactly when none was given |
| PutFileProperties.BucketInputNeverEmpty | backend/src/web/api/putFile.ts:65 | an empty bucket parameter or field counts as absent |
| PutFileProperties.BlankBucketIsIncorrect | backend/src/web/api/putFile.ts:81-83 | a white-space-only bucket answers INCORRECT "Field 'bucket' must be a non-empty string" |
| PutFileProperties.NormalizeBucketAcceptsIff | backend/src/web/api/putFile.ts:84-87 | a bucket is accepted exactly when, lower-cased and trimmed, it matches ^[a-z]+$, and it is stored in that form |
| PutFileProperties.NormalizeBucketIgnoresCase | backend/src/web/api/putFile.ts:84 | a bucket and its lower case normalise alike |
| PutFileProperties.NormalizeBucketIdempotent | backend/src/web/api/putFile.ts:84-87 | an accepted bucket normalises to itself |
| PutFileProperties.BucketExamples | backend/src/web/api/putFile.ts:84-87 | "MyBucket" is stored as "mybucket"; "My-Bucket" is refused with INCORRECT |
| PutFileProperties.DescribeKeepsUpload | backend/src/web/api/putFile.ts:92-103 | the record has a bucket exactly when it is non-empty, the trimmed name and extension, the MIME type and the byte count |
| PutFileProperties.UuidHasNoSlashOrDot | backend/src/web/api/putFile.ts:91 | a version-4 UUID contains no '/' and no '.' |
| PutFileProperties.UrlRoundTrip | backend/src/web/api/putFile.ts:95 | the URL reads back as the record's bucket (present exactly when it has one) and the file name `uuid.ext` |
| PutFileProperties.BlobPathIsRootPlusUrl | backend/src/web/api/putFile.ts:95-118 | the blob is written at the storage root followed by the record's URL |
| PutFileProperties.BlobPathEndsInFileName | backend/src/web/api/putFile.ts:118 | the blob path's last segment is the file name `uuid.ext` |
| PutFileProperties.DistinctUuidsDistinctBlobs | backend/src/web/api/putFile.ts:91-118 | uploads with distinct identifiers are written at distinct paths |
| PutFileProperties.InsertStatementShape | backend/src/web/api/putFile.ts:105-110 | seven columns with a bucket and six without, in the record's key order, with as many placeholders and values |
| PutFileProperties.PlaceholderNamesItsParameter | backend/src/web/api/putFile.ts:106 | placeholder i is "$" followed by i + 1 and names parameter i + 1 |
| PutFileProperties.PlaceholdersDistinct | backend/src/web/api/putFile.ts:106 | distinct positions have distinct placeholders |
| PutFileProperties.BindPrefix | backend/src/web/api/putFile.ts:105-110 | binding the first m columns to their placeholders gives the row of the first m entries |
| PutFileProperties.InsertBindsRecord | backend/src/web/api/putFile.ts:105-111 | the database, binding the statement's placeholders to its values, stores exactly the record's entries |
| PutFileProperties.RowOfKeys | backend/src/web/api/putFile.ts:105-107 | the stored row's columns are the record's keys |
| PutFileProperties.RowRoundTrip | backend/src/web/api/putFile.ts:92-111 | the stored row reads back as the record |
| PutFileProperties.RejectionChangesNothing | backend/src/web/api/putFile.ts:27-88 | a rejected request answers with its code and message and changes no row, directory or file |
| PutFileProperties.DatabaseFailureChangesNothing | backend/src/web/api/putFile.ts:111-124 | a failed insert changes nothing; a failed query answers UPSTREAM, a failed connection UNHANDLED |
| PutFileProperties.BlobOnlyAfterInsert | backend/src/web/api/putFile.ts:111-120 | the files change only for a valid request whose row was inserted, and then the answer is a success |
| PutFileProperties.FailureAfterInsertOrphansRow | backend/src/web/api/putFile.ts:115-124 | a failure after the insert answers UNHANDLED and leaves the row without a blob |
| PutFileProperties.DirectoryOnlyForNewBucket | backend/src/web/api/putFile.ts:115-117 | a directory is created only for a non-empty bucket whose directory is missing, together with the root (recursive) |
| PutFileProperties.SuccessIff | backend/src/web/api/putFile.ts:19-126 | the answer is a success exactly when the request is valid, the insert succeeds, the blob write does not throw, and `mkdirSync` does not throw if the directory has to be created |
| PutFileProperties.SuccessStoresRowAndBlob | backend/src/web/api/putFile.ts:92-120 | a success returns the record, appends its row (which reads back as the record) and writes the bytes at the root plus the URL |
| PutFileProperties.SuccessStoresBlob | backend/src/web/api/putFile.ts:118-120 | a success returns the record; the files afterwards are the files before, with the bytes at the root plus the URL |
| PutFileProperties.AcceptedUrlsDiffer | backend/src/web/api/putFile.ts:91-95 | accepted uploads with distinct identifiers get distinct URLs |
| PutFileProperties.SuccessiveUploadsKeepBothBlobs | backend/src/web/api/putFile.ts:91-120 | after two successful uploads with distinct identifiers, both blobs are stored with their own bytes |
| PutFileStore.Server.constructor | backend/src/web/index.ts:14 | start-up creates the storage root when it does not exist |
| PutFileStore.Server.PutFile | backend/src/web/api/putFile.ts:19-126 | the handler's response and the new rows, directories and files are those `Ingest` gives |
| PutFileStore.Server.Save | backend/src/web/api/putFile.ts:105-120 | insert, then create the directory if needed, then write the blob, stopping at the first failure: the result `Persist` gives |
| PutFileStore.Server.Post | backend/src/web/api/index.ts:14-20 | the route sends 201 exactly for a success, else the code's status, after the handler's state change |

## Left out

- I/O: the connection pool, Fastify, the multipart parser and the file
  system are not modelled. Each external call is reduced to whether it
  succeeds. Multipart limits are enforced inside `@fastify/multipart`.
  The console logging in the `catch` is left out.
- The `mime-types` registry is an uninterpreted function. Which types and
  extensions it knows is not modelled.
- `crypto.randomUUID()` is a parameter. Uniqueness of identifiers is a
  precondition of the lemmas that need it.
- Concurrency: simultaneous requests are not modelled. Each request runs
  alone on the state left by the previous one.
- `created_at`, filled in by the database, is not modelled.
- Query strings: the `URLSearchParams` at putFile.ts:21 is built from the
  already-parsed `req.query` object, so it holds one entry per key. The
  model takes the query as a map from key to one string. A query value
  that the parser turned into an array (which `URLSearchParams` would read
  as its comma-joined text) is not represented.
- `NodePath.JoinPaths`: models `path.join` over segments that are already
  normal (no ".", "..", or repeated '/'). The root and the segments the
  handler joins are of that form.
- `JsStrings.ToLowerCase`: maps only A-Z, and U+212A KELVIN SIGN to 'k'. Other
  characters are left unchanged. Full Unicode case mapping is not
  modelled. No other single character lower-cases to a letter a-z alone.
  U+0130 (capital I with dot above) lower-cases to "i" followed by U+0307,
  but U+0307 fails ^[a-z]+$, so such a bucket is refused either way.
  Which buckets are accepted, and their stored form, are therefore exact.
  A rejected bucket's intermediate lower case is not.
- `JsStrings.Split`: models `split` with a one-character separator only. That
  is the only form the handler uses.
- Response serialisation and the Fastify reply object are not modelled.
  The `Response` datatype holds the fields the handler sets.
