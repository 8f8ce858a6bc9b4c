/**
 * The shared error taxonomy: the client and server error codes with their
 * wire strings, the code-to-HTTP-status table, the tagged response union,
 * and the route's choice of status for a response.
 */
module ClassFields {
  import opened Wrappers

  datatype ClientErrorCode =
    | Unknown | Null | InvalidType | Incorrect | NotFound | Invest
    | Unauthorized | Forbidden | NetworkError

  datatype ServerErrorCode = Internal | Upstream | Unhandled | External | ExternalApi

  /** TErrorCodes: the union of the two enums. */
  datatype ErrorCode = Client(client: ClientErrorCode) | Server(server: ServerErrorCode)

  /** The string value each enum member carries on the wire. */
  function CodeValue(code: ErrorCode): string
  {
    match code
    case Client(Unknown) => "UNKNOWN"
    case Client(Null) => "IS_NULL"
    case Client(InvalidType) => "INVALID_TYPE"
    case Client(Incorrect) => "INCORRECT"
    case Client(NotFound) => "NOT_FOUND"
    case Client(Invest) => "NESTED_INCORRECT"
    case Client(Unauthorized) => "UNAUTHORIZED"
    case Client(Forbidden) => "FORBIDDEN"
    case Client(NetworkError) => "NETWORK_ERROR"
    case Server(Internal) => "UNKNOWN_INTERNAL_ERROR"
    case Server(Upstream) => "UPSTREAM_SERVER_ERROR"
    case Server(Unhandled) => "UNHANDLED_ERROR"
    case Server(External) => "EXTERNAL_SERVER_ERROR"
    case Server(ExternalApi) => "EXTERNAL_API_ERROR"
  }

  /** Reads a wire string back as a code: the inverse of CodeValue. */
  function ParseCode(s: string): (r: Option<ErrorCode>)
  {
    if s == "UNKNOWN" then Some(Client(Unknown))
    else if s == "IS_NULL" then Some(Client(Null))
    else if s == "INVALID_TYPE" then Some(Client(InvalidType))
    else if s == "INCORRECT" then Some(Client(Incorrect))
    else if s == "NOT_FOUND" then Some(Client(NotFound))
    else if s == "NESTED_INCORRECT" then Some(Client(Invest))
    else if s == "UNAUTHORIZED" then Some(Client(Unauthorized))
    else if s == "FORBIDDEN" then Some(Client(Forbidden))
    else if s == "NETWORK_ERROR" then Some(Client(NetworkError))
    else if s == "UNKNOWN_INTERNAL_ERROR" then Some(Server(Internal))
    else if s == "UPSTREAM_SERVER_ERROR" then Some(Server(Upstream))
    else if s == "UNHANDLED_ERROR" then Some(Server(Unhandled))
    else if s == "EXTERNAL_SERVER_ERROR" then Some(Server(External))
    else if s == "EXTERNAL_API_ERROR" then Some(Server(ExternalApi))
    else None
  }

  /** The `codesToHttp` record, keyed by the codes' wire strings. */
  const CodesToHttp: map<string, int> := map[
    "UNKNOWN" := 500,
    "IS_NULL" := 400,
    "INVALID_TYPE" := 400,
    "INCORRECT" := 400,
    "NOT_FOUND" := 404,
    "NESTED_INCORRECT" := 400,
    "UNAUTHORIZED" := 401,
    "NETWORK_ERROR" := 418,
    "FORBIDDEN" := 403,
    "UNKNOWN_INTERNAL_ERROR" := 500,
    "UPSTREAM_SERVER_ERROR" := 502,
    "UNHANDLED_ERROR" := 500,
    "EXTERNAL_SERVER_ERROR" := 502,
    "EXTERNAL_API_ERROR" := 502
  ]

  /** Table lookup by wire string, with the `?? 500` fallback for a key the table lacks. */
  function StatusOfKey(key: string): (status: int)
    ensures key !in CodesToHttp ==> status == 500
    ensures status in {400, 401, 403, 404, 418, 500, 502}
  {
    if key in CodesToHttp then CodesToHttp[key] else 500
  }

  /** InternalCodeToHTTP: the HTTP status a failed response is sent with. */
  function InternalCodeToHTTP(code: ErrorCode): (status: int)
    ensures 400 <= status < 600
    ensures code.Server? ==> status == 500 || status == 502
  {
    StatusOfKey(CodeValue(code))
  }

  /** EResponseStatus. */
  const SUCCESS: int := 1
  const ERROR: int := 0

  /** IHTTPResponse<T>: tagged by `status`; success carries a result, failure a code and a message. */
  datatype Response<T> = Success(result: T) | Error(code: ErrorCode, message: string)
  {
    function Status(): (s: int)
      ensures s == SUCCESS <==> Success?
      ensures s == ERROR <==> Error?
    {
      if Success? then SUCCESS else ERROR
    }
  }

  /** The upload route: 201 for a success, the table's status for a failure. */
  function RouteStatus<T>(r: Response<T>): (status: int)
  {
    if r.Status() == ERROR then InternalCodeToHTTP(r.code) else 201
  }

  // ---------------------------------------------------------------------------
  // Lemmas

  /** Every code's wire string reads back as that code. */
  lemma CodeValueRoundTrip(code: ErrorCode)
    ensures ParseCode(CodeValue(code)) == Some(code)
  {
    match code
    case Client(c) => ClientCodeRoundTrip(c);
    case Server(c) => ServerCodeRoundTrip(c);
  }

  lemma ClientCodeRoundTrip(c: ClientErrorCode)
    ensures ParseCode(CodeValue(Client(c))) == Some(Client(c))
  {
  }

  lemma ServerCodeRoundTrip(c: ServerErrorCode)
    ensures ParseCode(CodeValue(Server(c))) == Some(Server(c))
  {
  }

  /** The fourteen wire strings are pairwise distinct. */
  lemma CodeValueInjective(a: ErrorCode, b: ErrorCode)
    requires CodeValue(a) == CodeValue(b)
    ensures a == b
  {
    CodeValueRoundTrip(a);
    CodeValueRoundTrip(b);
  }

  /** The table has an entry for every code, so the `?? 500` fallback is never taken. */
  lemma TableIsTotal(code: ErrorCode)
    ensures CodeValue(code) in CodesToHttp
    ensures InternalCodeToHTTP(code) == CodesToHttp[CodeValue(code)]
  {
  }

  /** The table holds exactly the fourteen codes' wire strings. */
  lemma TableKeysAreCodes(key: string)
    ensures key in CodesToHttp <==> ParseCode(key).Some?
  {
  }

  /** The status of each client code. */
  lemma ClientCodeStatuses()
    ensures InternalCodeToHTTP(Client(Unauthorized)) == 401
    ensures InternalCodeToHTTP(Client(Forbidden)) == 403
    ensures InternalCodeToHTTP(Client(NotFound)) == 404
    ensures InternalCodeToHTTP(Client(Null)) == 400
    ensures InternalCodeToHTTP(Client(InvalidType)) == 400
    ensures InternalCodeToHTTP(Client(Incorrect)) == 400
    ensures InternalCodeToHTTP(Client(Invest)) == 400
    ensures InternalCodeToHTTP(Client(NetworkError)) == 418
    ensures InternalCodeToHTTP(Client(Unknown)) == 500
  {
  }

  /** Upstream and the two external codes are 502; internal and unhandled are 500. */
  lemma ServerCodeStatuses(s: ServerErrorCode)
    ensures InternalCodeToHTTP(Server(s)) == (if s in {Upstream, External, ExternalApi} then 502 else 500)
  {
  }

  /** UNKNOWN is the only client code that is sent with a 5xx status. */
  lemma OnlyUnknownClientCodeIs5xx(c: ClientErrorCode)
    ensures InternalCodeToHTTP(Client(c)) >= 500 <==> c == Unknown
  {
  }

  /** The route answers 201 exactly for a success; a failure gets a 4xx or 5xx status. */
  lemma RouteStatusDistinguishesOutcome<T>(r: Response<T>)
    ensures RouteStatus(r) == 201 <==> r.Success?
    ensures r.Error? ==> RouteStatus(r) == InternalCodeToHTTP(r.code) && 400 <= RouteStatus(r) < 600
  {
  }
}
