/** Types shared by the whole service: Rust integer widths, request cookies,
    HTTP status codes and the `{data, meta}` response envelope. */
module Common {
  import opened Wrappers

  const MinInt32: int := -0x8000_0000
  const MaxInt32: int := 0x7fff_ffff

  /** A Rust `i32`: account ids and todo ids. */
  type Int32 = x: int | MinInt32 <= x <= MaxInt32

  /** One octet of a request body. */
  type byte = b: int | 0 <= b < 256

  /** The name of the cookie that carries the session token. */
  const SessionCookieName: string := "session_id"

  /** A cookie parsed from the request's `Cookie` header. */
  datatype Cookie = Cookie(name: string, value: string)

  /** `HttpMessage::cookie(name)`: the value of the first cookie called `name`. */
  function FindCookie(cookies: seq<Cookie>, name: string): (r: Option<string>)
    ensures r.None? <==> forall k :: 0 <= k < |cookies| ==> cookies[k].name != name
    ensures r.Some? ==> exists k :: 0 <= k < |cookies| && cookies[k] == Cookie(name, r.value)
                                 && forall j :: 0 <= j < k ==> cookies[j].name != name
  {
    if cookies == [] then None
    else if cookies[0].name == name then Some(cookies[0].value)
    else
      var r := FindCookie(cookies[1..], name);
      assert r.Some? ==> exists k :: 1 <= k < |cookies| && cookies[k] == Cookie(name, r.value)
                                   && forall j :: 0 <= j < k ==> cookies[j].name != name
        by {
        if r.Some? {
          var k :| 0 <= k < |cookies[1..]| && cookies[1..][k] == Cookie(name, r.value)
                   && forall j :: 0 <= j < k ==> cookies[1..][j].name != name;
          assert forall j :: 0 <= j < k + 1 ==> cookies[j].name != name by {
            forall j | 0 <= j < k + 1 ensures cookies[j].name != name {
              if j > 0 { assert cookies[j] == cookies[1..][j - 1]; }
            }
          }
        }
      }
      r
  }

  // HTTP status codes used by the service.
  const StatusUnauthorized: int := 401
  const StatusForbidden: int := 403
  const StatusConflict: int := 409
  const StatusUnprocessableEntity: int := 422
  const StatusInternalServerError: int := 500

  /** The `meta` half of an error reply: `{"error": message}`. */
  datatype ErrorMeta = ErrorMeta(error: string)

  /** `ServerResponse { data, meta }`, the envelope of every JSON reply. */
  datatype Envelope<D, M> = Envelope(data: D, meta: M)

  /** An error reply: status, `Content-Type` header and JSON envelope with `data = ()`. */
  datatype ErrorResponse = ErrorResponse(status: int, contentType: string, body: Envelope<(), ErrorMeta>)

  const JsonContentType: string := "application/json"

  /** What every `ResponseError::error_response` of the service builds. */
  function ErrorReply(status: int, message: string): (r: ErrorResponse)
    ensures r.status == status && r.contentType == JsonContentType
    ensures r.body.meta.error == message
  {
    ErrorResponse(status, JsonContentType, Envelope((), ErrorMeta(message)))
  }
}
