/** `Guard::auth`: the per-handler check that the presented session cookie is the token
    the store holds for the account the request names. */
module Guards {
  import opened Wrappers
  import opened Common
  import opened SessionStore
  import opened TodoErrors

  /** `Guard::auth(request, state, account_id)`. It only reads the store. */
  function Auth(cookies: seq<Cookie>, store: Store, accountId: Int32): (r: Result<(), TodoError>)
    ensures r.Err? ==> r.error == Forbidden
    ensures r.Ok? <==> && FindCookie(cookies, SessionCookieName).Some?
                       && store.reachable && accountId in store.sessions
                       && store.sessions[accountId] == FindCookie(cookies, SessionCookieName).value
  {
    match FindCookie(cookies, SessionCookieName)
    case None => Err(Forbidden)
    case Some(presented) =>
      match store.Get(accountId)
      case Err(e) => Err(FromRedisError(e))
      case Ok(stored) => if presented == stored then Ok(()) else Err(Forbidden)
  }

  /** Without a `session_id` cookie the answer is Forbidden whatever the store holds:
      the store is not consulted. */
  lemma MissingCookieIsForbidden(cookies: seq<Cookie>, s1: Store, s2: Store, accountId: Int32)
    requires forall k :: 0 <= k < |cookies| ==> cookies[k].name != SessionCookieName
    ensures Auth(cookies, s1, accountId) == Auth(cookies, s2, accountId) == Err(Forbidden)
  {
  }

  /** A failed store read (no token, or the store unreachable) is Forbidden. */
  lemma StoreFailureIsForbidden(cookies: seq<Cookie>, store: Store, accountId: Int32)
    requires store.Get(accountId).Err?
    ensures Auth(cookies, store, accountId) == Err(Forbidden)
  {
  }

  /** Only the token stored for the account opens it: a cookie that differs from the
      stored token in any character is Forbidden, and the stored token itself is accepted. */
  lemma OnlyTheStoredTokenPasses(token: string, other: string, store: Store, accountId: Int32)
    requires store.reachable && accountId in store.sessions && store.sessions[accountId] == token
    requires other != token
    ensures Auth([Cookie(SessionCookieName, token)], store, accountId) == Ok(())
    ensures Auth([Cookie(SessionCookieName, other)], store, accountId) == Err(Forbidden)
  {
    assert FindCookie([Cookie(SessionCookieName, token)], SessionCookieName) == Some(token);
    assert FindCookie([Cookie(SessionCookieName, other)], SessionCookieName) == Some(other);
  }
}
