/**
 * The upload handler `putFileApi`: a strictly ordered chain of guards over
 * the request (the first failing guard decides the rejection), the record
 * derived from an accepted upload (identity, public URL, canonical MIME
 * type), the positional INSERT statement for that record, and the ordered
 * persistence (database row, then bucket directory, then blob) as a
 * function of the store before and the outcomes of the external calls.
 */
module PutFile {
  import opened Wrappers
  import opened JsStrings
  import NodePath
  import opened ClassFields

  newtype byte = b: int | 0 <= b < 256

  /**
   * A part as the multipart plugin attaches it to the body. A file part has
   * a file name, a declared MIME type and its bytes (`_buf`); a plain field
   * has a `value`. A property the part lacks is None.
   */
  datatype Part = Part(filename: Option<string>, mimetype: Option<string>,
                       buf: Option<seq<byte>>, value: Option<string>)

  /** What an array has under the names `filename`, `mimetype`, `_buf` and `value`: nothing. */
  const NoProperties := Part(None, None, None, None)

  /** A body field: one part, or the array of parts sent under one name. */
  datatype Field = Single(part: Part) | Multiple(parts: seq<Part>)

  /** Header names are lower case, as Node presents them; a body is absent or maps field names to fields. */
  datatype Request = Request(headers: map<string, string>, query: map<string, string>,
                             body: Option<map<string, Field>>)

  /**
   * The configured API key, and the registry lookup `mime.contentType`,
   * which maps a MIME type or an extension to a canonical content type or
   * to nothing (`false`).
   */
  datatype Env = Env(apiKey: string, contentType: string -> Option<string>)

  /** The `code` and `message` of a failed response. */
  datatype Rejection = Rejection(code: ErrorCode, message: string)

  /**
   * An upload that passed every guard: the file name as sent, the canonical
   * MIME type, the derived extension (before its final trim), the bytes,
   * and the normalised bucket ("" for none).
   */
  datatype Upload = Upload(filename: string, mimetype: string, ext: string,
                           buf: seq<byte>, bucket: string)

  function Lookup<V>(m: map<string, V>, key: string): Option<V>
  {
    if key in m then Some(m[key]) else None
  }

  /** `a || b || ... || undefined` over strings that may be absent: the first present, non-empty one. */
  function FirstTruthy(candidates: seq<Option<string>>): (r: Option<string>)
    ensures r != Some("")
  {
    if |candidates| == 0 then None
    else if candidates[0].Some? && candidates[0].value != "" then candidates[0]
    else FirstTruthy(candidates[1..])
  }

  /** `body?.name?.value`: the value of a plain field; an array or a missing field has none. */
  function FieldValue(body: map<string, Field>, name: string): Option<string>
  {
    if name in body && body[name].Single? then body[name].part.value else None
  }

  function Reject<T>(code: ClientErrorCode, message: string): Result<T, Rejection>
  {
    Err(Rejection(Client(code), message))
  }

  // ---------------------------------------------------------------------------
  // The guards, in source order

  /** Content present, multipart, body present; yields the body. */
  function CheckContent(req: Request): Result<map<string, Field>, Rejection>
  {
    var contentType := Lookup(req.headers, "content-type");
    var contentLength := Lookup(req.headers, "content-length");
    if contentType.None? || contentType.value == "" || contentLength == Some("0") then
      Reject(Null, "Content is empty")
    else if !StartsWith(contentType.value, "multipart/form-data") then
      Reject(InvalidType, "Invalid content type, expected multipart/form-data")
    else if req.body.None? then
      Reject(Null, "Body is empty")
    else
      Ok(req.body.value)
  }

  /**
   * The Authorization header: its second token when it splits on ' ' into
   * exactly two parts, else the whole header. The scheme word is not checked.
   */
  function BearerToken(req: Request): Option<string>
  {
    var auth := Lookup(req.headers, "authorization");
    if auth.None? || auth.value == "" then None
    else
      var parts := Split(auth.value, ' ');
      if |parts| == 2 then Some(parts[1]) else auth
  }

  /** The credential: bearer token, else the `secret` query parameter, else the `secret` body field. */
  function Credential(req: Request, body: map<string, Field>): Option<string>
  {
    FirstTruthy([BearerToken(req), Lookup(req.query, "secret"), FieldValue(body, "secret")])
  }

  /** No credential: UNAUTHORIZED; a credential unequal to the key: FORBIDDEN. */
  function Authorize(env: Env, req: Request, body: map<string, Field>): Result<(), Rejection>
  {
    var apikey := Credential(req, body);
    if apikey.None? then Reject(Unauthorized, "Unauthorized")
    else if apikey.value != env.apiKey then Reject(Forbidden, "Forbidden")
    else Ok(())
  }

  /** The field the handler reads: `file` when present, else `files`. */
  function ChosenField(body: map<string, Field>): Option<Field>
  {
    if "file" in body then Some(body["file"]) else Lookup(body, "files")
  }

  /**
   * `body["file"] || body["files"]`: absent is NULL, an array of more than
   * one part is INCORRECT, a one-part array is unwrapped. The guard
   * `file.length < 0` never holds; an empty array stays an array.
   */
  function SelectFile(body: map<string, Field>): Result<Part, Rejection>
  {
    var file := ChosenField(body);
    if file.None? then Reject(Null, "'file' or 'files' field is empty")
    else match file.value
      case Single(p) => Ok(p)
      case Multiple(ps) =>
        if |ps| > 1 then Reject(Incorrect, "Only one file is allowed")
        else if |ps| == 1 then Ok(ps[0])
        else Ok(NoProperties)
  }

  /** `urlParams.get("bucket") || body?.bucket?.value || undefined`. */
  function BucketInput(req: Request, body: map<string, Field>): Option<string>
  {
    FirstTruthy([Lookup(req.query, "bucket"), FieldValue(body, "bucket")])
  }

  /**
   * A supplied bucket must not be blank; it is lower-cased, then trimmed,
   * and must match ^[a-z]+$. No bucket is "".
   */
  function NormalizeBucket(bucket: Option<string>): (r: Result<string, Rejection>)
    ensures bucket.None? ==> r == Ok("")
    ensures bucket.Some? && r.Ok? ==> MatchesLowerLetters(r.value)
  {
    if bucket.None? then Ok("")
    else if |Trim(bucket.value)| < 1 then
      Reject(Incorrect, "Field 'bucket' must be a non-empty string")
    else
      var b := Trim(ToLowerCase(bucket.value));
      if !MatchesLowerLetters(b) then Reject(Incorrect, "Field 'bucket' can only contain letters a-z")
      else Ok(b)
  }

  /** `path.extname(filename.trim()).trim().replaceAll(".", "")`. */
  function DerivedExt(filename: string): (ext: string)
    ensures '.' !in ext
  {
    RemoveAll(Trim(NodePath.ExtName(Trim(filename))), '.')
  }

  /** Name, MIME type and bytes present; declared and extension MIME types both resolve and agree; bucket valid. */
  function CheckPart(env: Env, part: Part, bucket: Option<string>): Result<Upload, Rejection>
  {
    if part.filename.None? then Reject(Null, "Filename is empty")
    else if part.mimetype.None? then Reject(Null, "Mimetype is empty")
    else if part.buf.None? then Reject(Incorrect, "File incorrect")
    else
      var ext := DerivedExt(part.filename.value);
      var declared := env.contentType(part.mimetype.value);
      var fromExt := env.contentType(ext);
      if declared.None? || fromExt.None? then Reject(Incorrect, "Invalid mimetype of extension")
      else if declared.value != fromExt.value then
        Reject(Incorrect, "The mime type and the extension do not match the file type")
      else match NormalizeBucket(bucket)
        case Err(e) => Err(e)
        case Ok(b) => Ok(Upload(part.filename.value, declared.value, ext, part.buf.value, b))
  }

  /** The whole validation chain: the first failing guard's rejection, or the accepted upload. */
  function Validate(env: Env, req: Request): Result<Upload, Rejection>
  {
    match CheckContent(req)
    case Err(e) => Err(e)
    case Ok(body) =>
      match Authorize(env, req, body)
      case Err(e) => Err(e)
      case Ok(_) =>
        match SelectFile(body)
        case Err(e) => Err(e)
        case Ok(part) => CheckPart(env, part, BucketInput(req, body))
  }

  // ---------------------------------------------------------------------------
  // Identity and naming

  /** The stored record; `bucket` is None when the key was deleted. */
  datatype FileRecord = FileRecord(uuid: string, bucket: Option<string>, url: string,
                                   mimetype: string, ext: string, name: string, size: nat)

  /** `/{bucket/}{uuid}.{ext}`. */
  function Url(bucket: string, uuid: string, ext: string): string
  {
    "/" + (if bucket != "" then bucket + "/" else "") + uuid + "." + ext
  }

  /** The record of an accepted upload under identifier `uuid`; an empty bucket leaves the key out. */
  function Describe(u: Upload, uuid: string): FileRecord
  {
    var ext := Trim(u.ext);
    FileRecord(uuid, if u.bucket == "" then None else Some(u.bucket), Url(u.bucket, uuid, ext),
               u.mimetype, ext, Trim(u.filename), |u.buf|)
  }

  predicate IsLowerHexDigit(c: char)
  {
    ('0' <= c <= '9') || ('a' <= c <= 'f')
  }

  /** The text form of a version-4 UUID (section 4.4 of RFC 4122), as `crypto.randomUUID` returns it. */
  predicate IsUuidV4(s: string)
  {
    && |s| == 36
    && (forall i :: 0 <= i < 36 && i in {8, 13, 18, 23} ==> s[i] == '-')
    && (forall i :: 0 <= i < 36 && i !in {8, 13, 18, 23} ==> IsLowerHexDigit(s[i]))
    && s[14] == '4' && s[19] in "89ab"
  }

  /** Reads a public URL back into its optional bucket segment and its file name. */
  function ParseUrl(url: string): Option<(Option<string>, string)>
  {
    var parts := Split(url, '/');
    if |parts| == 2 && parts[0] == "" then Some((None, parts[1]))
    else if |parts| == 3 && parts[0] == "" && parts[1] != "" then Some((Some(parts[1]), parts[2]))
    else None
  }

  // ---------------------------------------------------------------------------
  // The INSERT statement

  datatype SqlValue = Text(text: string) | Number(number: int)

  /** `Object.entries(fileData)`: the keys in the order the object literal writes them. */
  function Entries(rec: FileRecord): seq<(string, SqlValue)>
  {
    [("uuid", Text(rec.uuid))]
    + (if rec.bucket.Some? then [("bucket", Text(rec.bucket.value))] else [])
    + [("url", Text(rec.url)), ("file_mimetype", Text(rec.mimetype)), ("file_ext", Text(rec.ext)),
       ("file_name", Text(rec.name)), ("file_size", Number(rec.size))]
  }

  function Keys(entries: seq<(string, SqlValue)>): (r: seq<string>)
    ensures |r| == |entries| && forall i :: 0 <= i < |r| ==> r[i] == entries[i].0
  {
    seq(|entries|, i requires 0 <= i < |entries| => entries[i].0)
  }

  function Values(entries: seq<(string, SqlValue)>): (r: seq<SqlValue>)
    ensures |r| == |entries| && forall i :: 0 <= i < |r| ==> r[i] == entries[i].1
  {
    seq(|entries|, i requires 0 <= i < |entries| => entries[i].1)
  }

  /** The placeholder of the value at 0-based position i. */
  function Placeholder(i: nat): string
  {
    "$" + NatToDecimal(i + 1)
  }

  function Placeholders(n: nat): (r: seq<string>)
    ensures |r| == n && forall i :: 0 <= i < n ==> r[i] == Placeholder(i)
  {
    seq(n, i requires 0 <= i < n => Placeholder(i))
  }

  datatype Statement = Statement(table: string, columns: seq<string>, placeholders: seq<string>,
                                 params: seq<SqlValue>)

  function InsertStatement(rec: FileRecord): Statement
  {
    var entries := Entries(rec);
    Statement("files", Keys(entries), Placeholders(|entries|), Values(entries))
  }

  /** The 1-based parameter number a placeholder `$k` names. */
  function PlaceholderIndex(p: string): Option<nat>
  {
    if |p| >= 2 && p[0] == '$' && AllDigits(p[1..]) then Some(DecimalValue(p[1..])) else None
  }

  /**
   * How the database reads a positional statement: the i-th column takes the
   * parameter its placeholder `$k` names; a malformed statement binds nothing.
   */
  function Bind(columns: seq<string>, placeholders: seq<string>, params: seq<SqlValue>)
    : Option<map<string, SqlValue>>
  {
    if |columns| != |placeholders| then None
    else if |columns| == 0 then Some(map[])
    else
      var n := |columns| - 1;
      var k := PlaceholderIndex(placeholders[n]);
      var prefix := Bind(columns[..n], placeholders[..n], params);
      if prefix.None? || k.None? || k.value < 1 || k.value > |params| then None
      else Some(prefix.value[columns[n] := params[k.value - 1]])
  }

  /** The row the entries describe: each key holds its value. */
  function RowOf(entries: seq<(string, SqlValue)>): map<string, SqlValue>
  {
    if |entries| == 0 then map[]
    else RowOf(entries[..|entries| - 1])[entries[|entries| - 1].0 := entries[|entries| - 1].1]
  }

  function TextAt(row: map<string, SqlValue>, key: string): Option<string>
  {
    if key in row && row[key].Text? then Some(row[key].text) else None
  }

  /** Reads a stored row back as a record. */
  function RecordOfRow(row: map<string, SqlValue>): Option<FileRecord>
  {
    var uuid, url := TextAt(row, "uuid"), TextAt(row, "url");
    var mimetype, ext, name := TextAt(row, "file_mimetype"), TextAt(row, "file_ext"), TextAt(row, "file_name");
    if uuid.None? || url.None? || mimetype.None? || ext.None? || name.None? then None
    else if "file_size" !in row || !row["file_size"].Number? || row["file_size"].number < 0 then None
    else Some(FileRecord(uuid.value, TextAt(row, "bucket"), url.value, mimetype.value, ext.value,
                         name.value, row["file_size"].number))
  }

  // ---------------------------------------------------------------------------
  // Persistence

  /** The `files` table, the directories and the files under the storage root. */
  datatype Store = Store(rows: seq<map<string, SqlValue>>, dirs: set<string>, files: map<string, seq<byte>>)

  /**
   * What the external calls do: the insert stores its row, or the query
   * fails (reported as an error by the connector), or acquiring a
   * connection fails (thrown); creating the directory or writing the blob
   * may throw.
   */
  datatype DbOutcome = Inserted | QueryFailed | ConnectFailed
  datatype Effects = Effects(db: DbOutcome, mkdirThrows: bool, writeThrows: bool)

  /** `fs.existsSync`: a directory or a file is there. */
  predicate Exists(s: Store, path: string)
  {
    path in s.dirs || path in s.files
  }

  function BucketDir(root: string, bucket: string): string
  {
    NodePath.JoinPaths([root, bucket])
  }

  /** `path.join(BUCKETS_DIR, bucket || "", uuid + "." + ext)`. */
  function BlobPath(root: string, rec: FileRecord): string
  {
    NodePath.JoinPaths([root, if rec.bucket.Some? then rec.bucket.value else "", rec.uuid + "." + rec.ext])
  }

  const UnhandledError: Response<FileRecord> := Error(Server(Unhandled), "Unknown error")

  /** Insert the row; then create the bucket directory when it is missing; then write the blob. */
  function Persist(root: string, s: Store, rec: FileRecord, buf: seq<byte>, fx: Effects)
    : (Response<FileRecord>, Store)
  {
    match fx.db
    case ConnectFailed => (UnhandledError, s)
    case QueryFailed => (Error(Server(Upstream), "Database error"), s)
    case Inserted =>
      var inserted := s.(rows := s.rows + [RowOf(Entries(rec))]);
      var needDir := rec.bucket.Some? && !Exists(inserted, BucketDir(root, rec.bucket.value));
      if needDir && fx.mkdirThrows then (UnhandledError, inserted)
      else
        var ready := if needDir then inserted.(dirs := inserted.dirs + {root, BucketDir(root, rec.bucket.value)})
                     else inserted;
        if fx.writeThrows then (UnhandledError, ready)
        else (Success(rec), ready.(files := ready.files[BlobPath(root, rec) := buf]))
  }

  /** The handler: the response and the store after it, for identifier `uuid`. */
  function Ingest(env: Env, root: string, s: Store, req: Request, uuid: string, fx: Effects)
    : (Response<FileRecord>, Store)
  {
    match Validate(env, req)
    case Err(e) => (Error(e.code, e.message), s)
    case Ok(u) => Persist(root, s, Describe(u, uuid), u.buf, fx)
  }
}
