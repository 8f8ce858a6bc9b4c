/**
 * The server state the upload handler changes: the `files` table, and the
 * directories and files under the storage root. `PutFile` performs the
 * handler's steps in order on that state and is proved to do exactly what
 * the functional description `PutFile.Ingest` says.
 */
module PutFileStore {
  import opened Wrappers
  import opened ClassFields
  import opened PutFile
  import PutFileProperties

  class Server {
    /** The configured API key and MIME registry. */
    const env: Env
    /** The storage root `BUCKETS_DIR`. */
    const bucketsDir: string
    var rows: seq<map<string, SqlValue>>
    var dirs: set<string>
    var files: map<string, seq<byte>>

    function State(): Store
      reads this
    {
      Store(rows, dirs, files)
    }

    /** Server start-up: the storage root is created when it does not exist yet. */
    constructor (env: Env, bucketsDir: string, s: Store)
      ensures this.env == env && this.bucketsDir == bucketsDir
      ensures State() == if Exists(s, bucketsDir) then s else s.(dirs := s.dirs + {bucketsDir})
    {
      this.env := env;
      this.bucketsDir := bucketsDir;
      rows := s.rows;
      dirs := s.dirs;
      files := s.files;
      new;
      if !(bucketsDir in dirs || bucketsDir in files) {
        dirs := dirs + {bucketsDir};
      }
    }

    /**
     * One upload under identifier `uuid`, the external calls behaving as
     * `fx` says: validate, build the record, then save it.
     */
    method PutFile(req: Request, uuid: string, fx: Effects) returns (resp: Response<FileRecord>)
      modifies this
      ensures (resp, State()) == Ingest(env, bucketsDir, old(State()), req, uuid, fx)
    {
      var checked := Validate(env, req);
      if checked.Err? {
        return Error(checked.error.code, checked.error.message);
      }
      var u := checked.value;
      var ext := JsStrings.Trim(u.ext);
      var fileData := FileRecord(uuid, Some(u.bucket), Url(u.bucket, uuid, ext), u.mimetype, ext,
                                 JsStrings.Trim(u.filename), |u.buf|);
      if fileData.bucket == Some("") {
        fileData := fileData.(bucket := None);
      }
      assert fileData == Describe(u, uuid);
      resp := Save(fileData, u.buf, fx);
    }

    /**
     * Insert the record's row through its positional statement; then create
     * the bucket directory if it is missing; then write the blob. A step
     * that fails ends the request and leaves the earlier steps in place.
     */
    method Save(fileData: FileRecord, buffer: seq<byte>, fx: Effects) returns (resp: Response<FileRecord>)
      modifies this
      ensures (resp, State()) == Persist(bucketsDir, old(State()), fileData, buffer, fx)
    {
      var st := InsertStatement(fileData);
      var row := Bind(st.columns, st.placeholders, st.params);
      PutFileProperties.InsertBindsRecord(fileData);
      match fx.db {
        case ConnectFailed => return UnhandledError;
        case QueryFailed => return Error(Server(Upstream), "Database error");
        case Inserted => rows := rows + [row.value];
      }

      if fileData.bucket.Some? {
        var dir := BucketDir(bucketsDir, fileData.bucket.value);
        if !(dir in dirs || dir in files) {
          if fx.mkdirThrows {
            return UnhandledError;
          }
          dirs := dirs + {bucketsDir, dir};
        }
      }

      if fx.writeThrows {
        return UnhandledError;
      }
      files := files[BlobPath(bucketsDir, fileData) := buffer];
      return Success(fileData);
    }

    /** The route: the handler's response with 201 on success, else the status its code maps to. */
    method Post(req: Request, uuid: string, fx: Effects) returns (status: int, resp: Response<FileRecord>)
      modifies this
      ensures (resp, State()) == Ingest(env, bucketsDir, old(State()), req, uuid, fx)
      ensures status == RouteStatus(resp)
      ensures resp.Success? <==> status == 201
    {
      resp := PutFile(req, uuid, fx);
      status := if resp.Error? then InternalCodeToHTTP(resp.code) else 201;
      RouteStatusDistinguishesOutcome(resp);
    }
  }
}
