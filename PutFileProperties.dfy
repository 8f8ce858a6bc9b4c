/**
 * What the upload handler promises, stated over the model in PutFile:
 * guard precedence, credential resolution, file-field handling, extension
 * and MIME cross-check, bucket normalisation, naming, the INSERT statement,
 * and the ordering of the persistence steps.
 */
module PutFileProperties {
  import opened Wrappers
  import opened JsStrings
  import NodePath
  import opened ClassFields
  import opened PutFile

  // ---------------------------------------------------------------------------
  // Guard precedence

  /** No content type, an empty one, or a content length of "0": NULL, whatever else the request holds. */
  lemma EmptyContentIsNull(env: Env, req: Request)
    requires var ct := Lookup(req.headers, "content-type");
             ct.None? || ct.value == "" || Lookup(req.headers, "content-length") == Some("0")
    ensures Validate(env, req) == Err(Rejection(Client(Null), "Content is empty"))
  {
  }

  /** Content present but not multipart/form-data: INVALID_TYPE, before any body or credential check. */
  lemma NonMultipartIsInvalidType(env: Env, req: Request)
    requires "content-type" in req.headers && req.headers["content-type"] != ""
    requires Lookup(req.headers, "content-length") != Some("0")
    requires !StartsWith(req.headers["content-type"], "multipart/form-data")
    ensures Validate(env, req) == Err(Rejection(Client(InvalidType), "Invalid content type, expected multipart/form-data"))
  {
  }

  /** The content guards answer NULL or INVALID_TYPE. */
  lemma CheckContentCodes(req: Request)
    ensures CheckContent(req).Err? ==> CheckContent(req).error.code in {Client(Null), Client(InvalidType)}
  {
  }

  /** The credential guard answers UNAUTHORIZED or FORBIDDEN. */
  lemma AuthorizeCodes(env: Env, req: Request, body: map<string, Field>)
    ensures Authorize(env, req, body).Err? ==>
              Authorize(env, req, body).error.code in {Client(Unauthorized), Client(Forbidden)}
  {
  }

  /** The file-field guard answers NULL or INCORRECT. */
  lemma SelectFileCodes(body: map<string, Field>)
    ensures SelectFile(body).Err? ==> SelectFile(body).error.code in {Client(Null), Client(Incorrect)}
  {
  }

  /** The part, MIME and bucket guards answer NULL or INCORRECT. */
  lemma CheckPartCodes(env: Env, part: Part, bucket: Option<string>)
    ensures CheckPart(env, part, bucket).Err? ==>
              CheckPart(env, part, bucket).error.code in {Client(Null), Client(Incorrect)}
  {
  }

  /** Past the content and credential guards, the answer is decided by the file field and the part. */
  lemma ValidatePastAuthorization(env: Env, req: Request, body: map<string, Field>)
    requires CheckContent(req) == Ok(body) && Authorize(env, req, body).Ok?
    ensures Validate(env, req) == match SelectFile(body)
                                  case Err(e) => Err(e)
                                  case Ok(part) => CheckPart(env, part, BucketInput(req, body))
  {
  }

  /**
   * Once the content and credential guards pass, which credential was sent
   * and where makes no difference: two requests with the same body and the
   * same bucket input get the same answer.
   */
  lemma OutcomeIgnoresAcceptedCredential(env: Env, req1: Request, req2: Request, body: map<string, Field>)
    requires CheckContent(req1) == Ok(body) && CheckContent(req2) == Ok(body)
    requires Authorize(env, req1, body).Ok? && Authorize(env, req2, body).Ok?
    requires BucketInput(req1, body) == BucketInput(req2, body)
    ensures Validate(env, req1) == Validate(env, req2)
  {
    ValidatePastAuthorization(env, req1, body);
    ValidatePastAuthorization(env, req2, body);
  }

  /** Every rejection of the chain carries one of five client codes, one per guard family. */
  lemma RejectionCodes(env: Env, req: Request)
    requires Validate(env, req).Err?
    ensures Validate(env, req).error.code in
              {Client(Null), Client(InvalidType), Client(Incorrect), Client(Unauthorized), Client(Forbidden)}
  {
    CheckContentCodes(req);
    match CheckContent(req)
    case Err(_) =>
    case Ok(body) =>
      AuthorizeCodes(env, req, body);
      if Authorize(env, req, body).Ok? {
        ValidatePastAuthorization(env, req, body);
        SelectFileCodes(body);
        match SelectFile(body)
        case Err(_) =>
        case Ok(part) => CheckPartCodes(env, part, BucketInput(req, body));
      }
  }

  /** Every rejection of the chain is a client error, sent with 400, 401 or 403. */
  lemma RejectionsAreClientErrors(env: Env, req: Request)
    requires Validate(env, req).Err?
    ensures Validate(env, req).error.code.Client?
    ensures InternalCodeToHTTP(Validate(env, req).error.code) in {400, 401, 403}
  {
    RejectionCodes(env, req);
    ClientCodeStatuses();
  }

  // ---------------------------------------------------------------------------
  // Credentials

  /** Precedence: bearer token, then the `secret` query parameter, then the `secret` body field; empty counts as absent. */
  lemma CredentialPrecedence(req: Request, body: map<string, Field>)
    ensures var bearer, query := BearerToken(req), Lookup(req.query, "secret");
            Credential(req, body) ==
              if bearer.Some? && bearer.value != "" then bearer
              else if query.Some? && query.value != "" then query
              else if FieldValue(body, "secret") == Some("") then None
              else FieldValue(body, "secret")
  {
    var cs := [BearerToken(req), Lookup(req.query, "secret"), FieldValue(body, "secret")];
    FirstTruthyStep(cs[0], [cs[1], cs[2]]);
    FirstTruthyStep(cs[1], [cs[2]]);
    FirstTruthyStep(cs[2], []);
    assert cs == [cs[0]] + [cs[1], cs[2]];
  }

  lemma FirstTruthyStep(c: Option<string>, rest: seq<Option<string>>)
    ensures FirstTruthy([c] + rest) == if c.Some? && c.value != "" then c else FirstTruthy(rest)
  {
    assert ([c] + rest)[1..] == rest;
  }

  /** An Authorization header `scheme token` yields the token, whatever the scheme word is. */
  lemma BearerTokenOfTwoWords(req: Request, scheme: string, token: string)
    requires ' ' !in scheme && ' ' !in token
    requires Lookup(req.headers, "authorization") == Some(scheme + " " + token)
    ensures BearerToken(req) == Some(token)
  {
    SplitAtOnlySeparator(scheme, ' ', token);
  }

  /** A header that does not split into exactly two words is used whole. */
  lemma BearerTokenOfOtherHeader(req: Request)
    requires "authorization" in req.headers && req.headers["authorization"] != ""
    requires Occurrences(req.headers["authorization"], ' ') != 1
    ensures BearerToken(req) == Some(req.headers["authorization"])
  {
    SplitCount(req.headers["authorization"], ' ');
  }

  /** Once the content checks pass, UNAUTHORIZED is the answer exactly when no credential is found. */
  lemma UnauthorizedIffNoCredential(env: Env, req: Request, body: map<string, Field>)
    requires CheckContent(req) == Ok(body)
    ensures Validate(env, req) == Err(Rejection(Client(Unauthorized), "Unauthorized"))
            <==> Credential(req, body).None?
  {
    if Authorize(env, req, body).Ok? {
      ValidatePastAuthorization(env, req, body);
      SelectFileCodes(body);
      match SelectFile(body)
      case Err(_) =>
      case Ok(part) => CheckPartCodes(env, part, BucketInput(req, body));
    }
  }

  /** Once the content checks pass, FORBIDDEN is the answer exactly when the credential differs from the key. */
  lemma ForbiddenIffWrongCredential(env: Env, req: Request, body: map<string, Field>)
    requires CheckContent(req) == Ok(body)
    ensures Validate(env, req) == Err(Rejection(Client(Forbidden), "Forbidden"))
            <==> Credential(req, body).Some? && Credential(req, body).value != env.apiKey
  {
    if Authorize(env, req, body).Ok? {
      ValidatePastAuthorization(env, req, body);
      SelectFileCodes(body);
      match SelectFile(body)
      case Err(_) =>
      case Ok(part) => CheckPartCodes(env, part, BucketInput(req, body));
    }
  }

  /** UNAUTHORIZED and FORBIDDEN are only reached past the content checks; an accepted upload carried the key. */
  lemma AuthorizationFollowsContentChecks(env: Env, req: Request)
    ensures Validate(env, req).Err? && Validate(env, req).error.code in {Client(Unauthorized), Client(Forbidden)}
            ==> CheckContent(req).Ok?
    ensures Validate(env, req).Ok? ==>
              CheckContent(req).Ok? && Credential(req, CheckContent(req).value) == Some(env.apiKey)
  {
  }

  // ---------------------------------------------------------------------------
  // The file field

  /** More than one part under the chosen field: INCORRECT, once the earlier guards pass. */
  lemma SeveralFilesAreIncorrect(env: Env, req: Request, body: map<string, Field>)
    requires CheckContent(req) == Ok(body) && Authorize(env, req, body).Ok?
    requires ChosenField(body).Some? && ChosenField(body).value.Multiple?
    requires |ChosenField(body).value.parts| > 1
    ensures Validate(env, req) == Err(Rejection(Client(Incorrect), "Only one file is allowed"))
  {
  }

  /** An empty array is not unwrapped: it has no file name, so the chain answers NULL there. */
  lemma EmptyArrayHasNoFilename(env: Env, req: Request, body: map<string, Field>)
    requires CheckContent(req) == Ok(body) && Authorize(env, req, body).Ok?
    requires ChosenField(body) == Some(Multiple([]))
    ensures Validate(env, req) == Err(Rejection(Client(Null), "Filename is empty"))
  {
  }

  /** A one-part array under `file` (or under `files` when there is no `file`) behaves exactly as the part alone. */
  lemma SingletonArrayIsUnwrapped(env: Env, req: Request, body: map<string, Field>, name: string, p: Part)
    requires name == "file" || (name == "files" && "file" !in body)
    ensures Validate(env, req.(body := Some(body[name := Multiple([p])])))
            == Validate(env, req.(body := Some(body[name := Single(p)])))
  {
    var b1, b2 := body[name := Multiple([p])], body[name := Single(p)];
    var r1, r2 := req.(body := Some(b1)), req.(body := Some(b2));
    assert FieldValue(b1, "secret") == FieldValue(b2, "secret");
    assert FieldValue(b1, "bucket") == FieldValue(b2, "bucket");
    assert Authorize(env, r1, b1) == Authorize(env, r2, b2) by {
      assert Credential(r1, b1) == Credential(r2, b2);
    }
    assert BucketInput(r1, b1) == BucketInput(r2, b2);
    assert SelectFile(b1) == SelectFile(b2);
    if CheckContent(r1).Ok? {
      assert CheckContent(r1) == Ok(b1) && CheckContent(r2) == Ok(b2);
    } else {
      assert CheckContent(r1) == CheckContent(r2);
    }
  }

  // ---------------------------------------------------------------------------
  // Extension and MIME type

  /** A trimmed name `base.ext` (no '/', no '.' in ext) has extension `ext`. */
  lemma DerivedExtOfFileName(base: string, ext: string)
    requires '/' !in base && '/' !in ext && '.' !in ext
    requires base != "" && !(base == "." && ext == "")
    requires !IsWhiteSpace(base[0]) && (ext == "" || (!IsWhiteSpace(ext[0]) && !IsWhiteSpace(ext[|ext| - 1])))
    ensures DerivedExt(base + "." + ext) == ext
  {
    var name := base + "." + ext;
    assert name[0] == base[0];
    assert name[|name| - 1] == if ext == "" then '.' else ext[|ext| - 1];
    TrimOfTrimmed(name);
    NodePath.ExtNameOfFileName(base, ext);
    assert ("." + ext)[1..] == ext;
    assert Trim("." + ext) == "." + ext by {
      TrimOfTrimmed("." + ext);
    }
    assert RemoveAll("." + ext, '.') == RemoveAll(ext, '.');
    RemoveAllAbsent(ext, '.');
  }

  /** A dot file such as ".bashrc" has no extension. */
  lemma DerivedExtOfDotFile(name: string)
    requires '/' !in name && '.' !in name
    requires name == "" || !IsWhiteSpace(name[|name| - 1])
    ensures DerivedExt("." + name) == ""
  {
    var f := "." + name;
    assert f[|f| - 1] == if name == "" then '.' else name[|name| - 1];
    TrimOfTrimmed(f);
    NodePath.ExtNameOfDotFile(name);
  }

  /** The derived extension holds no '/' either, and neither does the stored one. */
  lemma DerivedExtHasNoSlash(filename: string)
    ensures '/' !in DerivedExt(filename)
    ensures '/' !in Trim(DerivedExt(filename)) && '.' !in Trim(DerivedExt(filename))
  {
    var e := NodePath.ExtName(Trim(filename));
    NodePath.ExtNameFacts(Trim(filename));
    TrimKeeps(e, '/');
    RemoveAllKeeps(Trim(e), '.', '/');
    TrimKeeps(DerivedExt(filename), '/');
    TrimKeeps(DerivedExt(filename), '.');
  }

  lemma TrimKeeps(s: string, c: char)
    requires c !in s
    ensures c !in Trim(s)
  {
    TrimFacts(s);
    var a: nat, b: nat :| a <= b <= |s| && Trim(s) == s[a..b];
  }

  lemma {:induction false} RemoveAllKeeps(s: string, d: char, c: char)
    requires c !in s
    ensures c !in RemoveAll(s, d)
  {
    if |s| > 0 {
      RemoveAllKeeps(s[1..], d, c);
    }
  }

  /**
   * Past the bytes check, a part is accepted exactly when the declared MIME
   * type and the extension both resolve to the same canonical type (and the
   * bucket is valid); otherwise the answer is INCORRECT.
   */
  lemma MimeCrossCheck(env: Env, part: Part, bucket: Option<string>)
    requires part.filename.Some? && part.mimetype.Some? && part.buf.Some?
    ensures var declared := env.contentType(part.mimetype.value);
            var fromExt := env.contentType(DerivedExt(part.filename.value));
            CheckPart(env, part, bucket).Ok?
            <==> declared.Some? && fromExt == declared && NormalizeBucket(bucket).Ok?
    ensures CheckPart(env, part, bucket).Err? ==> CheckPart(env, part, bucket).error.code == Client(Incorrect)
  {
  }

  /** What an accepted upload satisfies: every guard passed, in order, on the part that was selected. */
  lemma AcceptedUpload(env: Env, req: Request, u: Upload)
    requires Validate(env, req) == Ok(u)
    ensures CheckContent(req).Ok? && Credential(req, CheckContent(req).value) == Some(env.apiKey)
    ensures var part := SelectFile(CheckContent(req).value);
            && part.Ok?
            && part.value.filename == Some(u.filename)
            && part.value.buf == Some(u.buf)
            && part.value.mimetype.Some?
            && env.contentType(part.value.mimetype.value) == Some(u.mimetype)
    ensures u.ext == DerivedExt(u.filename) && '.' !in u.ext
    ensures env.contentType(u.ext) == Some(u.mimetype)
    ensures u.bucket == "" || MatchesLowerLetters(u.bucket)
    ensures u.bucket == "" <==> BucketInput(req, CheckContent(req).value).None?
  {
  }

  // ---------------------------------------------------------------------------
  // Bucket

  /** An empty bucket field or parameter counts as no bucket. */
  lemma BucketInputNeverEmpty(req: Request, body: map<string, Field>)
    ensures BucketInput(req, body) != Some("")
    ensures var q, f := Lookup(req.query, "bucket"), FieldValue(body, "bucket");
            BucketInput(req, body).None? <==> (q.None? || q.value == "") && (f.None? || f.value == "")
  {
    var cs := [Lookup(req.query, "bucket"), FieldValue(body, "bucket")];
    FirstTruthyStep(cs[0], [cs[1]]);
    FirstTruthyStep(cs[1], []);
    assert cs == [cs[0]] + [cs[1]];
    assert [cs[1]] + [] == [cs[1]];
  }

  /** A blank bucket (white space only) is refused as INCORRECT. */
  lemma BlankBucketIsIncorrect(s: string)
    requires AllWhiteSpace(s)
    ensures NormalizeBucket(Some(s)) == Err(Rejection(Client(Incorrect), "Field 'bucket' must be a non-empty string"))
  {
    TrimEmptyIff(s);
  }

  /** A supplied bucket is accepted exactly when, lower-cased and trimmed, it matches ^[a-z]+$. */
  lemma NormalizeBucketAcceptsIff(s: string)
    ensures NormalizeBucket(Some(s)).Ok? <==> MatchesLowerLetters(Trim(ToLowerCase(s)))
    ensures NormalizeBucket(Some(s)).Ok? ==> NormalizeBucket(Some(s)).value == Trim(ToLowerCase(s))
  {
    TrimLowerCommute(s);
  }

  /** Case does not matter: a bucket and its lower case normalise alike. */
  lemma NormalizeBucketIgnoresCase(s: string)
    ensures NormalizeBucket(Some(ToLowerCase(s))) == NormalizeBucket(Some(s))
  {
    TrimLowerCommute(s);
    TrimLowerCommute(ToLowerCase(s));
    LowerIdempotent(s);
  }

  /** An accepted bucket normalises to itself. */
  lemma NormalizeBucketIdempotent(s: string)
    requires NormalizeBucket(Some(s)).Ok?
    ensures NormalizeBucket(Some(NormalizeBucket(Some(s)).value)) == NormalizeBucket(Some(s))
  {
    var b := NormalizeBucket(Some(s)).value;
    LowerOfLowerLetters(b);
    assert !IsWhiteSpace(b[0]) && !IsWhiteSpace(b[|b| - 1]);
    TrimOfTrimmed(b);
  }

  /** "MyBucket" is stored as "mybucket"; "My-Bucket" is refused. */
  lemma BucketExamples()
    ensures NormalizeBucket(Some("MyBucket")) == Ok("mybucket")
    ensures NormalizeBucket(Some("My-Bucket")) ==
              Err(Rejection(Client(Incorrect), "Field 'bucket' can only contain letters a-z"))
  {
    assert ToLowerCase("MyBucket") == "mybucket";
    TrimOfTrimmed("MyBucket");
    TrimOfTrimmed("mybucket");
    assert ToLowerCase("My-Bucket") == "my-bucket";
    TrimOfTrimmed("My-Bucket");
    TrimOfTrimmed("my-bucket");
    assert "my-bucket"[2] == '-';
  }

  // ---------------------------------------------------------------------------
  // Naming

  /** The record keeps the bucket exactly when there is one, the trimmed name and the byte count. */
  lemma DescribeKeepsUpload(u: Upload, uuid: string)
    ensures var rec := Describe(u, uuid);
            && (rec.bucket.Some? <==> u.bucket != "")
            && (rec.bucket.Some? ==> rec.bucket.value == u.bucket)
            && rec.uuid == uuid && rec.mimetype == u.mimetype && rec.size == |u.buf|
            && rec.name == Trim(u.filename) && rec.ext == Trim(u.ext)
  {
  }

  lemma UuidHasNoSlashOrDot(uuid: string)
    requires IsUuidV4(uuid)
    ensures '/' !in uuid && '.' !in uuid
  {
    forall i | 0 <= i < |uuid| ensures uuid[i] != '/' && uuid[i] != '.' {
      if i in {8, 13, 18, 23} { assert uuid[i] == '-'; } else { assert IsLowerHexDigit(uuid[i]); }
    }
  }

  lemma NoSlashInLowerLetters(s: string)
    requires MatchesLowerLetters(s)
    ensures '/' !in s
  {
    forall i | 0 <= i < |s| ensures s[i] != '/' {
      assert IsLowerLetter(s[i]);
    }
  }

  lemma NoSlashInFileName(uuid: string, ext: string)
    requires '/' !in uuid && '/' !in ext
    ensures '/' !in uuid + "." + ext
  {
    var n := uuid + "." + ext;
    forall i | 0 <= i < |n| ensures n[i] != '/' {
      if i < |uuid| { assert n[i] == uuid[i]; }
      else if i > |uuid| { assert n[i] == ext[i - |uuid| - 1]; }
    }
  }

  /**
   * The URL reads back as its bucket segment (present exactly when the
   * record has a bucket) and the file name `uuid.ext`.
   */
  lemma UrlRoundTrip(u: Upload, uuid: string)
    requires IsUuidV4(uuid) && '/' !in Trim(u.ext)
    requires u.bucket == "" || MatchesLowerLetters(u.bucket)
    ensures var rec := Describe(u, uuid);
            ParseUrl(rec.url) == Some((rec.bucket, uuid + "." + rec.ext))
  {
    var rec := Describe(u, uuid);
    var name := uuid + "." + rec.ext;
    UuidHasNoSlashOrDot(uuid);
    NoSlashInFileName(uuid, rec.ext);
    if u.bucket == "" {
      assert rec.url == "/" + name;
      ParseUrlWithoutBucket(name);
    } else {
      NoSlashInLowerLetters(u.bucket);
      assert rec.url == "/" + u.bucket + "/" + name;
      ParseUrlWithBucket(u.bucket, name);
    }
  }

  lemma ParseUrlWithoutBucket(name: string)
    requires '/' !in name
    ensures ParseUrl("/" + name) == Some((None, name))
  {
    SplitWithoutSeparator(name, '/');
    assert "/" + name == [] + ['/'] + name;
    SplitAppend([], '/', name);
  }

  lemma ParseUrlWithBucket(bucket: string, name: string)
    requires '/' !in name && '/' !in bucket && bucket != ""
    ensures ParseUrl("/" + bucket + "/" + name) == Some((Some(bucket), name))
  {
    SplitWithoutSeparator(name, '/');
    SplitWithoutSeparator(bucket, '/');
    assert "/" + bucket + "/" + name == [] + ['/'] + (bucket + ['/'] + name);
    SplitAppend([], '/', bucket + ['/'] + name);
    SplitAppend(bucket, '/', name);
  }

  /** The blob is stored at the storage root followed by the record's URL. */
  lemma BlobPathIsRootPlusUrl(root: string, u: Upload, uuid: string)
    requires root != ""
    ensures BlobPath(root, Describe(u, uuid)) == root + Describe(u, uuid).url
  {
    var rec := Describe(u, uuid);
    var b := if rec.bucket.Some? then rec.bucket.value else "";
    assert b == u.bucket;
    NodePath.JoinPathsOfThree(root, b, uuid + "." + rec.ext);
  }

  /** In `B + N`, with N free of '/' and B empty or ending in '/', N is the text after the last '/'. */
  lemma {:induction false} AfterLastSlashOfJoined(b: string, n: string)
    requires '/' !in n
    requires b == [] || b[|b| - 1] == '/'
    ensures NodePath.AfterLastSlash(b + n) == n
  {
    if n == [] {
      assert b + n == b;
    } else {
      var m := n[..|n| - 1];
      AfterLastSlashOfJoined(b, m);
      assert (b + n)[..|b + n| - 1] == b + m;
      assert n == m + [n[|n| - 1]];
    }
  }

  /** The last segment of a blob's path is the record's file name `uuid.ext`. */
  lemma BlobPathEndsInFileName(root: string, rec: FileRecord)
    requires root != "" && '/' !in rec.uuid + "." + rec.ext
    ensures NodePath.AfterLastSlash(BlobPath(root, rec)) == rec.uuid + "." + rec.ext
  {
    var b := if rec.bucket.Some? then rec.bucket.value else "";
    var name := rec.uuid + "." + rec.ext;
    NodePath.JoinPathsOfThree(root, b, name);
    var dir := if b == "" then root + "/" else root + "/" + b + "/";
    assert BlobPath(root, rec) == dir + name;
    AfterLastSlashOfJoined(dir, name);
  }

  /** Two uploads with distinct identifiers are stored at distinct paths: no blob overwrites another. */
  lemma DistinctUuidsDistinctBlobs(root: string, u1: Upload, id1: string, u2: Upload, id2: string)
    requires root != "" && IsUuidV4(id1) && IsUuidV4(id2) && id1 != id2
    requires '/' !in Trim(u1.ext) && '/' !in Trim(u2.ext)
    ensures BlobPath(root, Describe(u1, id1)) != BlobPath(root, Describe(u2, id2))
  {
    var r1, r2 := Describe(u1, id1), Describe(u2, id2);
    UuidHasNoSlashOrDot(id1);
    UuidHasNoSlashOrDot(id2);
    NoSlashInFileName(id1, r1.ext);
    NoSlashInFileName(id2, r2.ext);
    BlobPathEndsInFileName(root, r1);
    BlobPathEndsInFileName(root, r2);
    assert (id1 + "." + r1.ext)[..36] == id1;
    assert (id2 + "." + r2.ext)[..36] == id2;
  }

  // ---------------------------------------------------------------------------
  // The INSERT statement

  /** Seven columns with a bucket, six without, in the object's key order, with one placeholder and one value each. */
  lemma InsertStatementShape(rec: FileRecord)
    ensures var st := InsertStatement(rec);
            && st.table == "files"
            && |st.columns| == |st.placeholders| == |st.params| == (if rec.bucket.Some? then 7 else 6)
            && st.columns == ["uuid"] + (if rec.bucket.Some? then ["bucket"] else [])
                             + ["url", "file_mimetype", "file_ext", "file_name", "file_size"]
            && (forall i :: 0 <= i < |st.placeholders| ==> st.placeholders[i] == "$" + NatToDecimal(i + 1))
  {
  }

  /** Placeholder i names parameter i + 1. */
  lemma PlaceholderNamesItsParameter(i: nat)
    ensures PlaceholderIndex(Placeholder(i)) == Some(i + 1)
  {
    var d := NatToDecimal(i + 1);
    assert Placeholder(i)[1..] == d;
    DecimalRoundTrip(i + 1);
  }

  /** The placeholders are pairwise distinct. */
  lemma PlaceholdersDistinct(i: nat, j: nat)
    requires i != j
    ensures Placeholder(i) != Placeholder(j)
  {
    PlaceholderNamesItsParameter(i);
    PlaceholderNamesItsParameter(j);
  }

  lemma {:induction false} BindPrefix(entries: seq<(string, SqlValue)>, m: nat)
    requires m <= |entries|
    ensures Bind(Keys(entries[..m]), Placeholders(m), Values(entries)) == Some(RowOf(entries[..m]))
  {
    if m > 0 {
      BindPrefix(entries, m - 1);
      assert Keys(entries[..m])[..m - 1] == Keys(entries[..m - 1]);
      assert Placeholders(m)[..m - 1] == Placeholders(m - 1);
      assert entries[..m][..m - 1] == entries[..m - 1];
      PlaceholderNamesItsParameter(m - 1);
    }
  }

  /** Binding the statement's parameters to its columns stores exactly the record's entries. */
  lemma InsertBindsRecord(rec: FileRecord)
    ensures var st := InsertStatement(rec);
            Bind(st.columns, st.placeholders, st.params) == Some(RowOf(Entries(rec)))
  {
    var e := Entries(rec);
    BindPrefix(e, |e|);
    assert e[..|e|] == e;
  }

  /** An entry no later entry overrides is in the row with its value. */
  lemma {:induction false} RowOfLookup(entries: seq<(string, SqlValue)>, i: nat)
    requires i < |entries|
    requires forall j :: i < j < |entries| ==> entries[j].0 != entries[i].0
    ensures entries[i].0 in RowOf(entries) && RowOf(entries)[entries[i].0] == entries[i].1
  {
    var n := |entries| - 1;
    if i < n {
      RowOfLookup(entries[..n], i);
    }
  }

  /** The row's columns are the entries' keys. */
  lemma {:induction false} RowOfKeys(entries: seq<(string, SqlValue)>)
    ensures forall key :: key in RowOf(entries) <==> key in Keys(entries)
  {
    if |entries| > 0 {
      var n := |entries| - 1;
      RowOfKeys(entries[..n]);
      assert Keys(entries) == Keys(entries[..n]) + [entries[n].0];
    }
  }

  /** The record's columns, in order, are pairwise distinct. */
  lemma EntriesKeysDistinct(rec: FileRecord)
    ensures var e := Entries(rec);
            forall i, j :: 0 <= i < j < |e| ==> e[i].0 != e[j].0
  {
    var e := Entries(rec);
    if rec.bucket.Some? {
      assert Keys(e) == ["uuid", "bucket", "url", "file_mimetype", "file_ext", "file_name", "file_size"];
    } else {
      assert Keys(e) == ["uuid", "url", "file_mimetype", "file_ext", "file_name", "file_size"];
    }
  }

  /** With distinct keys, every entry is in the row with its value. */
  lemma RowOfDistinct(entries: seq<(string, SqlValue)>)
    requires forall i, j :: 0 <= i < j < |entries| ==> entries[i].0 != entries[j].0
    ensures forall i :: 0 <= i < |entries| ==> entries[i].0 in RowOf(entries) && RowOf(entries)[entries[i].0] == entries[i].1
  {
    forall i | 0 <= i < |entries|
      ensures entries[i].0 in RowOf(entries) && RowOf(entries)[entries[i].0] == entries[i].1
    {
      RowOfLookup(entries, i);
    }
  }

  /** The stored row reads back as the record. */
  lemma RowRoundTrip(rec: FileRecord)
    ensures RecordOfRow(RowOf(Entries(rec))) == Some(rec)
  {
    EntriesKeysDistinct(rec);
    RowOfDistinct(Entries(rec));
    if rec.bucket.Some? {
      RowReadsBucket(rec);
    } else {
      RowReadsNoBucket(rec);
    }
  }

  lemma RowReadsBucket(rec: FileRecord)
    requires rec.bucket.Some?
    requires var e := Entries(rec);
             forall i :: 0 <= i < |e| ==> e[i].0 in RowOf(e) && RowOf(e)[e[i].0] == e[i].1
    ensures RecordOfRow(RowOf(Entries(rec))) == Some(rec)
  {
    var e := Entries(rec);
    assert e[0].0 == "uuid" && e[1].0 == "bucket" && e[2].0 == "url" && e[3].0 == "file_mimetype";
    assert e[4].0 == "file_ext" && e[5].0 == "file_name" && e[6].0 == "file_size";
  }

  lemma RowReadsNoBucket(rec: FileRecord)
    requires rec.bucket.None?
    requires var e := Entries(rec);
             forall i :: 0 <= i < |e| ==> e[i].0 in RowOf(e) && RowOf(e)[e[i].0] == e[i].1
    ensures RecordOfRow(RowOf(Entries(rec))) == Some(rec)
  {
    var e := Entries(rec);
    RowOfKeys(e);
    assert e[0].0 == "uuid" && e[1].0 == "url" && e[2].0 == "file_mimetype";
    assert e[3].0 == "file_ext" && e[4].0 == "file_name" && e[5].0 == "file_size";
    assert Keys(e) == ["uuid", "url", "file_mimetype", "file_ext", "file_name", "file_size"];
  }

  // ---------------------------------------------------------------------------
  // Persistence

  /** A rejected request changes nothing and answers with the rejection. */
  lemma RejectionChangesNothing(env: Env, root: string, s: Store, req: Request, uuid: string, fx: Effects)
    requires Validate(env, req).Err?
    ensures var e := Validate(env, req).error;
            Ingest(env, root, s, req, uuid, fx) == (Error(e.code, e.message), s)
  {
  }

  /** A failed insert creates no row, no directory and no blob: UPSTREAM for a failed query, UNHANDLED for a failed connection. */
  lemma DatabaseFailureChangesNothing(env: Env, root: string, s: Store, req: Request, uuid: string, fx: Effects)
    requires Validate(env, req).Ok? && fx.db != Inserted
    ensures Ingest(env, root, s, req, uuid, fx).1 == s
    ensures Ingest(env, root, s, req, uuid, fx).0.Error?
    ensures Ingest(env, root, s, req, uuid, fx).0.code == if fx.db == QueryFailed then Server(Upstream) else Server(Unhandled)
  {
  }

  /** A blob is written only after the row was inserted, and only on success. */
  lemma BlobOnlyAfterInsert(env: Env, root: string, s: Store, req: Request, uuid: string, fx: Effects)
    requires Ingest(env, root, s, req, uuid, fx).1.files != s.files
    ensures Validate(env, req).Ok? && fx.db == Inserted
    ensures var rec := Describe(Validate(env, req).value, uuid);
            Ingest(env, root, s, req, uuid, fx).1.rows == s.rows + [RowOf(Entries(rec))]
    ensures Ingest(env, root, s, req, uuid, fx).0.Success?
  {
  }

  /** A failure after the insert answers UNHANDLED and leaves the row in place without a blob. */
  lemma FailureAfterInsertOrphansRow(env: Env, root: string, s: Store, req: Request, uuid: string, fx: Effects)
    requires Validate(env, req).Ok? && fx.db == Inserted
    requires Ingest(env, root, s, req, uuid, fx).0.Error?
    ensures Ingest(env, root, s, req, uuid, fx).0 == Error(Server(Unhandled), "Unknown error")
    ensures var rec := Describe(Validate(env, req).value, uuid);
            Ingest(env, root, s, req, uuid, fx).1.rows == s.rows + [RowOf(Entries(rec))]
    ensures Ingest(env, root, s, req, uuid, fx).1.files == s.files
  {
  }

  /** A directory is created only for a non-empty bucket whose directory is missing, recursively from the root. */
  lemma DirectoryOnlyForNewBucket(env: Env, root: string, s: Store, req: Request, uuid: string, fx: Effects)
    requires Ingest(env, root, s, req, uuid, fx).1.dirs != s.dirs
    ensures Validate(env, req).Ok? && fx.db == Inserted && !fx.mkdirThrows
    ensures var b := Validate(env, req).value.bucket;
            && b != ""
            && !Exists(s, BucketDir(root, b))
            && Ingest(env, root, s, req, uuid, fx).1.dirs == s.dirs + {root, BucketDir(root, b)}
  {
  }

  /** Success exactly when the request is valid, the insert succeeds, and no needed file-system call throws. */
  lemma SuccessIff(env: Env, root: string, s: Store, req: Request, uuid: string, fx: Effects)
    ensures Ingest(env, root, s, req, uuid, fx).0.Success? <==>
              && Validate(env, req).Ok? && fx.db == Inserted && !fx.writeThrows
              && (fx.mkdirThrows ==> Validate(env, req).value.bucket == ""
                                      || Exists(s, BucketDir(root, Validate(env, req).value.bucket)))
  {
  }

  /**
   * On success the response carries the record, the table gains its row
   * (which reads back as the record), and the bytes are stored at the root
   * followed by the record's URL.
   */
  lemma SuccessStoresRowAndBlob(env: Env, root: string, s: Store, req: Request, uuid: string, fx: Effects)
    requires root != ""
    requires Ingest(env, root, s, req, uuid, fx).0.Success?
    ensures var u := Validate(env, req).value;
            var rec := Ingest(env, root, s, req, uuid, fx).0.result;
            var after := Ingest(env, root, s, req, uuid, fx).1;
            && rec == Describe(u, uuid)
            && after.rows == s.rows + [RowOf(Entries(rec))]
            && RecordOfRow(after.rows[|after.rows| - 1]) == Some(rec)
            && after.files == s.files[root + rec.url := u.buf]
  {
    var u := Validate(env, req).value;
    RowRoundTrip(Describe(u, uuid));
    BlobPathIsRootPlusUrl(root, u, uuid);
  }

  /** A success writes the upload's bytes at the root followed by the record's URL. */
  lemma SuccessStoresBlob(env: Env, root: string, s: Store, req: Request, uuid: string, fx: Effects)
    requires root != ""
    requires Ingest(env, root, s, req, uuid, fx).0.Success?
    ensures var u := Validate(env, req).value;
            && Ingest(env, root, s, req, uuid, fx).0.result == Describe(u, uuid)
            && Ingest(env, root, s, req, uuid, fx).1.files == s.files[root + Describe(u, uuid).url := u.buf]
  {
    BlobPathIsRootPlusUrl(root, Validate(env, req).value, uuid);
  }

  /** An accepted upload's extension, as stored, holds no '/'. */
  lemma AcceptedExtHasNoSlash(env: Env, req: Request)
    requires Validate(env, req).Ok?
    ensures '/' !in Trim(Validate(env, req).value.ext)
  {
    var u := Validate(env, req).value;
    AcceptedUpload(env, req, u);
    DerivedExtHasNoSlash(u.filename);
  }

  /** Accepted uploads under distinct identifiers get distinct URLs. */
  lemma AcceptedUrlsDiffer(env: Env, req1: Request, u1: Upload, id1: string,
                           req2: Request, u2: Upload, id2: string)
    requires Validate(env, req1) == Ok(u1) && Validate(env, req2) == Ok(u2)
    requires IsUuidV4(id1) && IsUuidV4(id2) && id1 != id2
    ensures Describe(u1, id1).url != Describe(u2, id2).url
  {
    AcceptedExtHasNoSlash(env, req1);
    AcceptedExtHasNoSlash(env, req2);
    DistinctUuidsDistinctBlobs("/", u1, id1, u2, id2);
    BlobPathIsRootPlusUrl("/", u1, id1);
    BlobPathIsRootPlusUrl("/", u2, id2);
  }

  /** Two successive accepted uploads with distinct identifiers both keep their bytes. */
  lemma SuccessiveUploadsKeepBothBlobs(env: Env, root: string, s: Store,
                                       req1: Request, u1: Upload, id1: string, fx1: Effects,
                                       req2: Request, u2: Upload, id2: string, fx2: Effects,
                                       rec1: FileRecord, s1: Store, rec2: FileRecord, s2: Store)
    requires root != "" && IsUuidV4(id1) && IsUuidV4(id2) && id1 != id2
    requires Validate(env, req1) == Ok(u1) && Validate(env, req2) == Ok(u2)
    requires Ingest(env, root, s, req1, id1, fx1) == (Success(rec1), s1)
    requires Ingest(env, root, s1, req2, id2, fx2) == (Success(rec2), s2)
    ensures root + rec1.url != root + rec2.url
    ensures root + rec1.url in s2.files && root + rec2.url in s2.files
    ensures s2.files[root + rec1.url] == u1.buf
    ensures s2.files[root + rec2.url] == u2.buf
  {
    assert rec1 == Describe(u1, id1) && s1.files == s.files[root + rec1.url := u1.buf] by {
      SuccessStoresBlob(env, root, s, req1, id1, fx1);
    }
    assert rec2 == Describe(u2, id2) && s2.files == s1.files[root + rec2.url := u2.buf] by {
      SuccessStoresBlob(env, root, s1, req2, id2, fx2);
    }
    assert root + rec1.url != root + rec2.url by {
      AcceptedUrlsDiffer(env, req1, u1, id1, req2, u2, id2);
      assert (root + rec1.url)[|root|..] == rec1.url && (root + rec2.url)[|root|..] == rec2.url;
    }
  }
}
