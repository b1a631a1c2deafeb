/** `AuthenticationMiddleware`, which wraps every `/api/todo` route. It requires a
    `session_id` cookie, drains the streamed request body into one buffer, reads
    `account_id` out of that body, compares the cookie with the token the store holds
    for that account, and only then hands the request, with a fresh payload that
    holds the buffered bytes, to the wrapped service. */
module AuthMiddleware {
  import opened Wrappers
  import opened Common
  import opened SessionStore
  import Guards

  /** `AuthErrors`. */
  datatype AuthError = Forbidden

  /** `ResponseError::status_code` of `AuthErrors`. */
  function StatusCode(e: AuthError): int {
    match e
    case Forbidden => StatusForbidden
  }

  /** `ResponseError::error_response` of `AuthErrors`. */
  function Reply(e: AuthError): ErrorResponse {
    match e
    case Forbidden => ErrorReply(StatusCode(e), "Access forbidden")
  }

  /** A Forbidden answer is a 403 with "Access forbidden" under `meta.error`, `data` empty. */
  lemma ForbiddenReply()
    ensures Reply(Forbidden).status == 403
    ensures Reply(Forbidden).contentType == "application/json"
    ensures Reply(Forbidden).body == Envelope((), ErrorMeta("Access forbidden"))
  {
  }

  /** actix's `PayloadError`: why reading the next chunk of a body failed. */
  datatype PayloadError = Incomplete | EncodingCorrupted | Overflow | UnknownLength | Http2Payload | Io

  /** One item of the payload stream: a chunk of bytes, or a read error. */
  datatype Chunk = Bytes(data: seq<byte>) | Broken(error: PayloadError)

  /** A reply of the wrapped service, and an error it may return. Both are opaque here. */
  datatype ServiceResponse = ServiceResponse(status: int, body: seq<byte>)
  datatype ServiceError = ServiceError(status: int, message: string)

  /** The errors the middleware's future resolves to. */
  datatype MiddlewareError =
    | Auth(auth: AuthError)            // rejected by the middleware itself
    | Payload(payload: PayloadError)   // a chunk of the body could not be read
    | Inner(inner: ServiceError)       // the wrapped service's own error, passed through

  // ---------------------------------------------------------------------------
  // The body stream

  /** The stream yields the chunks in order; a read error ends the drain with that error. */
  function Drain(stream: seq<Chunk>): Result<seq<byte>, PayloadError> {
    if stream == [] then Ok([])
    else
      match Drain(stream[..|stream| - 1])
      case Err(e) => Err(e)
      case Ok(prefix) =>
        match stream[|stream| - 1]
        case Broken(e) => Err(e)
        case Bytes(d) => Ok(prefix + d)
  }

  /** The in-order concatenation of the byte chunks of a stream. */
  function Concat(stream: seq<Chunk>): seq<byte> {
    if stream == [] then []
    else (if stream[0].Bytes? then stream[0].data else []) + Concat(stream[1..])
  }

  predicate AllBytes(stream: seq<Chunk>) {
    forall k :: 0 <= k < |stream| ==> stream[k].Bytes?
  }

  lemma {:induction false} ConcatAppend(stream: seq<Chunk>, d: seq<byte>)
    ensures Concat(stream + [Bytes(d)]) == Concat(stream) + d
  {
    if stream == [] {
      assert [Bytes(d)][1..] == [];
    } else {
      var s := stream + [Bytes(d)];
      var head := if stream[0].Bytes? then stream[0].data else [];
      assert s[0] == stream[0] && s[1..] == stream[1..] + [Bytes(d)];
      ConcatAppend(stream[1..], d);
      assert Concat(s) == head + (Concat(stream[1..]) + d);
    }
  }

  /** A drain succeeds exactly when no chunk is a read error, and then the buffer is the
      in-order concatenation of all chunks. */
  lemma {:induction false} DrainSucceedsIffNoBrokenChunk(stream: seq<Chunk>)
    ensures Drain(stream).Ok? <==> AllBytes(stream)
    ensures Drain(stream).Ok? ==> Drain(stream).value == Concat(stream)
  {
    if stream != [] {
      var init, last := stream[..|stream| - 1], stream[|stream| - 1];
      DrainSucceedsIffNoBrokenChunk(init);
      assert stream == init + [last];
      if AllBytes(stream) {
        assert AllBytes(init);
        ConcatAppend(init, last.data);
      }
    }
  }

  /** A failed drain reports the error of the first broken chunk. */
  lemma {:induction false} DrainFailsWithFirstBrokenChunk(stream: seq<Chunk>, k: nat)
    requires k < |stream| && stream[k].Broken? && AllBytes(stream[..k])
    ensures Drain(stream) == Err(stream[k].error)
  {
    if k == |stream| - 1 {
      assert stream[..|stream| - 1] == stream[..k];
      DrainSucceedsIffNoBrokenChunk(stream[..k]);
    } else {
      var init := stream[..|stream| - 1];
      assert init[..k] == stream[..k];
      DrainFailsWithFirstBrokenChunk(init, k);
    }
  }

  // ---------------------------------------------------------------------------
  // The decision

  /** What the middleware does with a request: reject it with an error, or forward it
      with this body. */
  datatype Decision = Reject(error: MiddlewareError) | Forward(body: seq<byte>)

  /** The middleware's decision procedure, step by step as the source takes it.
      `decode` stands for `serde_json::from_slice::<RequestBody>`: `None` when the bytes
      are not a JSON object with an `i32` `account_id`. */
  function Decide(cookies: seq<Cookie>, stream: seq<Chunk>, store: Store, decode: seq<byte> -> Option<Int32>): (d: Decision)
    ensures FindCookie(cookies, SessionCookieName).None? ==> d == Reject(Auth(Forbidden))
    ensures d.Forward? ==> Drain(stream) == Ok(d.body)
    ensures d.Reject? ==> d.error == Auth(Forbidden) || (Drain(stream).Err? && d.error == Payload(Drain(stream).error))
  {
    match FindCookie(cookies, SessionCookieName)
    case None => Reject(Auth(Forbidden))
    case Some(presented) =>
      match Drain(stream)
      case Err(e) => Reject(Payload(e))
      case Ok(body) =>
        match decode(body)
        case None => Reject(Auth(Forbidden))
        case Some(accountId) =>
          match store.Get(accountId)
          case Err(_) => Reject(Auth(Forbidden))
          case Ok(stored) => if stored != presented then Reject(Auth(Forbidden)) else Forward(body)
  }

  /** No `session_id` cookie: Forbidden, whatever the body and the store. */
  lemma MissingCookieRejectedFirst(cookies: seq<Cookie>, s1: seq<Chunk>, s2: seq<Chunk>, st1: Store, st2: Store,
                                   decode: seq<byte> -> Option<Int32>)
    requires FindCookie(cookies, SessionCookieName).None?
    ensures Decide(cookies, s1, st1, decode) == Decide(cookies, s2, st2, decode) == Reject(Auth(Forbidden))
  {
  }

  /** With the cookie present, the first unreadable chunk aborts the request with its own error. */
  lemma ReadErrorAbortsWithThatError(cookies: seq<Cookie>, stream: seq<Chunk>, k: nat, store: Store,
                                     decode: seq<byte> -> Option<Int32>)
    requires FindCookie(cookies, SessionCookieName).Some?
    requires k < |stream| && stream[k].Broken? && AllBytes(stream[..k])
    ensures Decide(cookies, stream, store, decode) == Reject(Payload(stream[k].error))
  {
    DrainFailsWithFirstBrokenChunk(stream, k);
  }

  /** A readable body that does not decode to an account id is Forbidden. */
  lemma UndecodableBodyForbidden(cookies: seq<Cookie>, stream: seq<Chunk>, store: Store, decode: seq<byte> -> Option<Int32>)
    requires FindCookie(cookies, SessionCookieName).Some? && AllBytes(stream)
    requires decode(Concat(stream)).None?
    ensures Decide(cookies, stream, store, decode) == Reject(Auth(Forbidden))
  {
    DrainSucceedsIffNoBrokenChunk(stream);
  }

  /** A decoded account id whose token cannot be read from the store is Forbidden. */
  lemma StoreFailureForbidden(cookies: seq<Cookie>, stream: seq<Chunk>, store: Store, decode: seq<byte> -> Option<Int32>)
    requires FindCookie(cookies, SessionCookieName).Some? && AllBytes(stream)
    requires decode(Concat(stream)).Some? && store.Get(decode(Concat(stream)).value).Err?
    ensures Decide(cookies, stream, store, decode) == Reject(Auth(Forbidden))
  {
    DrainSucceedsIffNoBrokenChunk(stream);
  }

  /** A readable body naming an account whose stored token differs from the cookie is Forbidden. */
  lemma TokenMismatchForbidden(cookies: seq<Cookie>, stream: seq<Chunk>, store: Store, decode: seq<byte> -> Option<Int32>)
    requires FindCookie(cookies, SessionCookieName).Some? && AllBytes(stream)
    requires decode(Concat(stream)).Some? && store.Get(decode(Concat(stream)).value).Ok?
    requires store.Get(decode(Concat(stream)).value).value != FindCookie(cookies, SessionCookieName).value
    ensures Decide(cookies, stream, store, decode) == Reject(Auth(Forbidden))
  {
    DrainSucceedsIffNoBrokenChunk(stream);
  }

  /** The middleware forwards exactly when the body drains, decodes to an account id, and
      the guard would admit that account: the cookie equals the stored token exactly.
      What it forwards is the concatenation of all chunks. */
  lemma {:induction false} ForwardIffGuardAdmits(cookies: seq<Cookie>, stream: seq<Chunk>, store: Store,
                                                 decode: seq<byte> -> Option<Int32>)
    ensures Decide(cookies, stream, store, decode).Forward? <==>
              && AllBytes(stream)
              && decode(Concat(stream)).Some?
              && Guards.Auth(cookies, store, decode(Concat(stream)).value).Ok?
    ensures Decide(cookies, stream, store, decode).Forward? ==>
              Decide(cookies, stream, store, decode).body == Concat(stream)
    ensures Decide(cookies, stream, store, decode).Reject? ==>
              Decide(cookies, stream, store, decode).error.Auth? || Decide(cookies, stream, store, decode).error.Payload?
  {
    DrainSucceedsIffNoBrokenChunk(stream);
  }

  /** How the network splits the body into chunks does not change the decision. */
  lemma ChunkingIsInvisible(cookies: seq<Cookie>, s1: seq<Chunk>, s2: seq<Chunk>, store: Store,
                            decode: seq<byte> -> Option<Int32>)
    requires AllBytes(s1) && AllBytes(s2) && Concat(s1) == Concat(s2)
    ensures Decide(cookies, s1, store, decode) == Decide(cookies, s2, store, decode)
  {
    DrainSucceedsIffNoBrokenChunk(s1);
    DrainSucceedsIffNoBrokenChunk(s2);
  }

  // ---------------------------------------------------------------------------
  // The request and the wrapped service

  /** The parts of a `ServiceRequest` the middleware touches: its cookies and its payload,
      given as the items the payload stream will yield. */
  class ServiceRequest {
    const cookies: seq<Cookie>
    var payload: seq<Chunk>

    constructor (cookies: seq<Cookie>, payload: seq<Chunk>)
      ensures this.cookies == cookies && this.payload == payload
    {
      this.cookies := cookies;
      this.payload := payload;
    }

    /** `take_payload`: hands over the stream and leaves an empty payload behind. */
    method TakePayload() returns (stream: seq<Chunk>)
      modifies this
      ensures stream == old(payload) && payload == []
    {
      stream := payload;
      payload := [];
    }

    /** `Payload::empty()` + `unread_data(body)` + `set_payload`: the new stream yields the
        whole body as one chunk, then ends. */
    method SetPayload(body: seq<byte>)
      modifies this
      ensures payload == [Bytes(body)]
    {
      payload := [Bytes(body)];
    }
  }

  /** The wrapped service: a handler of cookies and payload, with a record of every call. */
  class Service {
    const handler: (seq<Cookie>, seq<Chunk>) -> Result<ServiceResponse, ServiceError>
    var calls: nat
    var received: seq<seq<Chunk>>  // the payload of each request it was called with

    constructor (handler: (seq<Cookie>, seq<Chunk>) -> Result<ServiceResponse, ServiceError>)
      ensures this.handler == handler && calls == 0 && received == []
    {
      this.handler := handler;
      calls := 0;
      received := [];
    }

    method Call(req: ServiceRequest) returns (r: Result<ServiceResponse, ServiceError>)
      modifies this
      ensures calls == old(calls) + 1 && received == old(received) + [req.payload]
      ensures r == handler(req.cookies, req.payload)
    {
      calls := calls + 1;
      received := received + [req.payload];
      r := handler(req.cookies, req.payload);
    }
  }

  /** `AuthenticationMiddleware::call`. */
  method Call(req: ServiceRequest, state: AppState, svc: Service, decode: seq<byte> -> Option<Int32>)
    returns (r: Result<ServiceResponse, MiddlewareError>)
    modifies req, svc
    ensures Decide(req.cookies, old(req.payload), state.redis, decode).Reject? ==>
              && r == Err(Decide(req.cookies, old(req.payload), state.redis, decode).error)
              && svc.calls == old(svc.calls) && svc.received == old(svc.received)
              && req.payload == (if FindCookie(req.cookies, SessionCookieName).None? then old(req.payload) else [])
    ensures Decide(req.cookies, old(req.payload), state.redis, decode).Forward? ==>
              var body := Decide(req.cookies, old(req.payload), state.redis, decode).body;
              && svc.calls == old(svc.calls) + 1
              && svc.received == old(svc.received) + [[Bytes(body)]]
              && req.payload == [Bytes(body)]
              && r == match svc.handler(req.cookies, [Bytes(body)])
                      case Ok(resp) => Ok(resp)
                      case Err(e) => Err(Inner(e))
  {
    var presented := FindCookie(req.cookies, SessionCookieName);
    if presented.None? {
      return Err(Auth(Forbidden));
    }

    var body: seq<byte> := [];
    var stream := req.TakePayload();
    var i := 0;
    while i < |stream|
      invariant 0 <= i <= |stream|
      invariant Drain(stream[..i]) == Ok(body)
      invariant AllBytes(stream[..i]) && body == Concat(stream[..i])
      invariant req.payload == [] && unchanged(svc)
    {
      assert stream[..i + 1][..i] == stream[..i];
      match stream[i]
      case Broken(e) =>
        assert AllBytes(stream[..i]) by { DrainSucceedsIffNoBrokenChunk(stream[..i]); }
        DrainFailsWithFirstBrokenChunk(stream, i);
        return Err(Payload(e));
      case Bytes(d) =>
        body := body + d;
        DrainSucceedsIffNoBrokenChunk(stream[..i + 1]);
      i := i + 1;
    }
    assert stream[..i] == stream;

    var accountId := decode(body);
    if accountId.None? {
      return Err(Auth(Forbidden));
    }
    var stored := state.redis.Get(accountId.value);
    if stored.Err? {
      return Err(Auth(Forbidden));
    }
    if stored.value != presented.value {
      return Err(Auth(Forbidden));
    }

    req.SetPayload(body);
    var res := svc.Call(req);
    match res
    case Ok(resp) => return Ok(resp);
    case Err(e) => return Err(Inner(e));
  }
}
