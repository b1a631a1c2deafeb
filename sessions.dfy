/** How login, the guard and the middleware fit together over one session store:
    the token login issues opens the account, and the next login for the same account
    shuts out the previous token, because the store keeps one token per account. */
module Sessions {
  import opened Wrappers
  import opened Common
  import opened SessionStore
  import opened AccountControllers
  import Guards
  import TodoErrors
  import AuthMiddleware
  import CookieHeader

  /** The cookie a client sends back after reading a `Set-Cookie`. */
  function Presented(c: SessionCookie): seq<Cookie> {
    [Cookie(c.name, c.value)]
  }

  /** The cookie a successful login issues opens that account at the guard. */
  lemma IssuedCookieAdmits(store: Store, body: AccountRequest, lookup: Result<seq<Int32>, LoginDbError>, token: string)
    requires Login(store, body, lookup, token).result.Ok?
    ensures var o := Login(store, body, lookup, token);
            Guards.Auth(Presented(o.result.value.cookie), o.store, o.result.value.accountId) == Ok(())
  {
    var o := Login(store, body, lookup, token);
    assert FindCookie(Presented(o.result.value.cookie), SessionCookieName) == Some(token);
  }

  /** A second successful login for the same account with another token: the first token
      is Forbidden at the guard and at the middleware, the second is admitted. */
  lemma SecondLoginSupersedesFirst(store: Store, body1: AccountRequest, body2: AccountRequest,
                                   lookup1: Result<seq<Int32>, LoginDbError>, lookup2: Result<seq<Int32>, LoginDbError>,
                                   t1: string, t2: string,
                                   stream: seq<AuthMiddleware.Chunk>, decode: seq<byte> -> Option<Int32>)
    requires Login(store, body1, lookup1, t1).result.Ok?
    requires Login(Login(store, body1, lookup1, t1).store, body2, lookup2, t2).result.Ok?
    requires Login(store, body1, lookup1, t1).result.value.accountId ==
             Login(Login(store, body1, lookup1, t1).store, body2, lookup2, t2).result.value.accountId
    requires t1 != t2
    requires AuthMiddleware.AllBytes(stream)
    requires decode(AuthMiddleware.Concat(stream)) == Some(Login(store, body1, lookup1, t1).result.value.accountId)
    ensures var o1 := Login(store, body1, lookup1, t1);
            var o2 := Login(o1.store, body2, lookup2, t2);
            var id := o1.result.value.accountId;
            && Guards.Auth(Presented(o1.result.value.cookie), o2.store, id) == Err(TodoErrors.Forbidden)
            && Guards.Auth(Presented(o2.result.value.cookie), o2.store, id) == Ok(())
            && AuthMiddleware.Decide(Presented(o1.result.value.cookie), stream, o2.store, decode)
                 == AuthMiddleware.Reject(AuthMiddleware.Auth(AuthMiddleware.Forbidden))
            && AuthMiddleware.Decide(Presented(o2.result.value.cookie), stream, o2.store, decode).Forward?
  {
    var o1 := Login(store, body1, lookup1, t1);
    var o2 := Login(o1.store, body2, lookup2, t2);
    var id := o1.result.value.accountId;
    Guards.OnlyTheStoredTokenPasses(t2, t1, o2.store, id);
    assert Presented(o1.result.value.cookie) == [Cookie(SessionCookieName, t1)];
    assert Presented(o2.result.value.cookie) == [Cookie(SessionCookieName, t2)];
    AuthMiddleware.TokenMismatchForbidden(Presented(o1.result.value.cookie), stream, o2.store, decode);
    AuthMiddleware.ForwardIffGuardAdmits(Presented(o2.result.value.cookie), stream, o2.store, decode);
  }

  /** Logging in to one account leaves every other account's session as it was. */
  lemma LoginKeepsOtherSessions(store: Store, body: AccountRequest, lookup: Result<seq<Int32>, LoginDbError>,
                                token: string, cookies: seq<Cookie>, other: Int32)
    requires Login(store, body, lookup, token).result.Ok? ==> Login(store, body, lookup, token).result.value.accountId != other
    ensures Guards.Auth(cookies, Login(store, body, lookup, token).store, other) == Guards.Auth(cookies, store, other)
  {
  }

  /** The tests' `get_session_id` reads back the token of a login's `Set-Cookie`: when that
      header is the last one the helper's pattern matches and every header is visible
      ASCII, the running answer of its loop is the token. The token has no ';' or newline,
      as a hyphenated UUID has neither. */
  lemma TestsReadTheIssuedToken(store: Store, body: AccountRequest, lookup: Result<seq<Int32>, LoginDbError>,
                                token: string, attributes: string, headers: seq<string>, k: nat)
    requires Login(store, body, lookup, token).result.Ok?
    requires |token| >= 1 && ';' !in token && '\n' !in token
    requires |attributes| >= 1 && attributes[0] == ';'
    requires k < |headers|
    requires headers[k] == CookieHeader.SetCookieValue(Login(store, body, lookup, token).result.value.cookie.value, attributes)
    requires forall j :: 0 <= j < |headers| ==> CookieHeader.Visible(headers[j])
    requires forall j :: k < j < |headers| ==> CookieHeader.Captures(headers[j]).None?
    ensures CookieHeader.LastMatch(headers) == token
  {
    CookieHeader.ReadsBackTheIssuedToken(token, attributes);
    CookieHeader.LastMatchingHeaderWins(headers, k);
  }

  /** `get_session_id` called on the headers of a login response answers that login's token. */
  method SessionIdOfLogin(store: Store, body: AccountRequest, lookup: Result<seq<Int32>, LoginDbError>,
                          token: string, attributes: string, headers: seq<string>, k: nat)
    returns (r: Option<string>)
    requires Login(store, body, lookup, token).result.Ok?
    requires |token| >= 1 && ';' !in token && '\n' !in token
    requires |attributes| >= 1 && attributes[0] == ';'
    requires k < |headers|
    requires headers[k] == CookieHeader.SetCookieValue(Login(store, body, lookup, token).result.value.cookie.value, attributes)
    requires forall j :: 0 <= j < |headers| ==> CookieHeader.Visible(headers[j])
    requires forall j :: k < j < |headers| ==> CookieHeader.Captures(headers[j]).None?
    ensures r == Some(token)
  {
    TestsReadTheIssuedToken(store, body, lookup, token, attributes, headers, k);
    r := CookieHeader.GetSessionId(headers);
  }
}
