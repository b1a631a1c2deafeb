/** `get_session_id` of the integration tests' helpers: read the session token out of a
    response's headers with the regular expression `session_id=(.+?);`, keeping the
    capture of the last header that matches. */
module CookieHeader {
  import opened Wrappers
  import opened Common

  /** The literal part of the pattern before the capture group. */
  const SessionPrefix: string := "session_id="

  /** The first index at or after `from` holding ';' or '\n', or the end: where a lazy
      `.+?;` either succeeds (';') or cannot go on ('\n' is not matched by `.`). */
  function DelimiterFrom(h: string, from: nat): (e: nat)
    requires from <= |h|
    ensures from <= e <= |h|
    ensures e < |h| ==> h[e] == ';' || h[e] == '\n'
    ensures forall k :: from <= k < e ==> h[k] != ';' && h[k] != '\n'
    decreases |h| - from
  {
    if from == |h| || h[from] == ';' || h[from] == '\n' then from else DelimiterFrom(h, from + 1)
  }

  /** `c` occurs in `h` directly after a `session_id=` that starts at index `p`, and directly
      before a ';'. */
  predicate DelimitedAt(h: string, p: nat, c: string) {
    && p + 11 + |c| < |h|
    && h[p..p + 11] == SessionPrefix
    && h[p + 11..p + 11 + |c|] == c
    && h[p + 11 + |c|] == ';'
  }

  /** The match of `session_id=(.+?);` that starts at index `p`, if any, as its capture. */
  function MatchAt(h: string, p: nat): (r: Option<string>)
    ensures p + 12 > |h| ==> r.None?
    ensures r.Some? ==>
              && DelimitedAt(h, p, r.value)
              && |r.value| >= 1
              && '\n' !in r.value
              && (forall k :: 1 <= k < |r.value| ==> r.value[k] != ';')
  {
    if p + 12 <= |h| && h[p..p + 11] == SessionPrefix && h[p + 11] != '\n' then
      var e := DelimiterFrom(h, p + 12);
      if e < |h| && h[e] == ';' then Some(h[p + 11..e]) else None
    else None
  }

  /** Any occurrence of `session_id=` followed by a newline-free, non-empty text and a ';'
      is a match at that index, and the lazy capture is no longer than that text. */
  lemma MatchAtFindsShortest(h: string, p: nat, n: nat)
    requires 1 <= n && p + 11 + n < |h|
    requires h[p..p + 11] == SessionPrefix && h[p + 11 + n] == ';'
    requires forall k :: p + 11 <= k < p + 11 + n ==> h[k] != '\n'
    ensures MatchAt(h, p).Some? && |MatchAt(h, p).value| <= n
  {
    var e := DelimiterFrom(h, p + 12);
    assert e <= p + 11 + n;
  }

  /** The leftmost match at or after index `p`. */
  function CapturesFrom(h: string, p: nat): Option<string>
    decreases |h| - p
  {
    if p + 12 > |h| then None
    else
      match MatchAt(h, p)
      case Some(c) => Some(c)
      case None => CapturesFrom(h, p + 1)
  }

  /** The search finds a match exactly when there is one, and then the leftmost. */
  lemma {:induction false} CapturesFromIsLeftmost(h: string, p: nat)
    ensures var r := CapturesFrom(h, p);
            && (r.None? <==> forall q :: p <= q ==> MatchAt(h, q).None?)
            && (r.Some? ==> exists q :: p <= q && MatchAt(h, q) == r && forall q' :: p <= q' < q ==> MatchAt(h, q').None?)
    decreases |h| - p
  {
    if p + 12 <= |h| && MatchAt(h, p).None? {
      CapturesFromIsLeftmost(h, p + 1);
      var r := CapturesFrom(h, p);
      if r.Some? {
        var q :| p + 1 <= q && MatchAt(h, q) == r && forall q' :: p + 1 <= q' < q ==> MatchAt(h, q').None?;
        assert p <= q && MatchAt(h, q) == r && forall q' :: p <= q' < q ==> MatchAt(h, q').None?;
      }
    }
  }

  /** `cookie_regex.captures(h)` and its group 1. */
  function Captures(h: string): Option<string> {
    CapturesFrom(h, 0)
  }

  /** A capture is non-empty, holds no newline, and sits in the header directly after
      `session_id=` and directly before a ';'. */
  lemma CaptureIsDelimited(h: string)
    requires Captures(h).Some?
    ensures var c := Captures(h).value;
            && |c| >= 1 && '\n' !in c
            && exists p :: DelimitedAt(h, p, c)
  {
    CapturesFromIsLeftmost(h, 0);
    var c := Captures(h).value;
    var q :| 0 <= q && MatchAt(h, q) == Some(c) && forall q' :: 0 <= q' < q ==> MatchAt(h, q').None?;
    assert DelimitedAt(h, q, c);
  }

  /** The `Set-Cookie` value of a session cookie: `session_id=<token>` and then its
      attributes, each introduced by "; ". */
  function SetCookieValue(token: string, attributes: string): string {
    SessionCookieName + "=" + token + attributes
  }

  /** The token of a session cookie is read back from its `Set-Cookie` value whenever it
      has no ';' and no newline and at least one attribute follows it. */
  lemma ReadsBackTheIssuedToken(token: string, attributes: string)
    requires |token| >= 1 && ';' !in token && '\n' !in token
    requires |attributes| >= 1 && attributes[0] == ';'
    ensures Captures(SetCookieValue(token, attributes)) == Some(token)
  {
    var h := SetCookieValue(token, attributes);
    assert h[..11] == SessionPrefix;
    assert h[11..11 + |token|] == token;
    var e := DelimiterFrom(h, 12);
    assert forall k :: 11 <= k < 11 + |token| ==> h[k] == token[k - 11];
    assert e == 11 + |token|;
  }

  /** `HeaderValue::to_str` succeeds: every byte is visible ASCII or a tab. */
  predicate Visible(h: string) {
    forall k :: 0 <= k < |h| ==> VisibleByte(h[k])
  }

  predicate VisibleByte(c: char) {
    ' ' <= c <= '~' || c == '\t'
  }

  /** The running `session_id` after the given headers: the capture of the last matching one,
      or "" when none matches. */
  function LastMatch(headers: seq<string>): string {
    if headers == [] then ""
    else
      match Captures(headers[|headers| - 1])
      case Some(c) => c
      case None => LastMatch(headers[..|headers| - 1])
  }

  /** No header matches: the answer is "". */
  lemma {:induction false} NoMatchGivesEmpty(headers: seq<string>)
    requires forall k :: 0 <= k < |headers| ==> Captures(headers[k]).None?
    ensures LastMatch(headers) == ""
  {
    if headers != [] {
      var init := headers[..|headers| - 1];
      assert forall k :: 0 <= k < |init| ==> init[k] == headers[k];
      NoMatchGivesEmpty(init);
    }
  }

  /** The last matching header decides, whatever non-matching headers follow it. */
  lemma {:induction false} LastMatchingHeaderWins(headers: seq<string>, k: nat)
    requires k < |headers| && Captures(headers[k]).Some?
    requires forall j :: k < j < |headers| ==> Captures(headers[j]).None?
    ensures LastMatch(headers) == Captures(headers[k]).value
  {
    if k < |headers| - 1 {
      var init := headers[..|headers| - 1];
      assert forall j :: 0 <= j < |init| ==> init[j] == headers[j];
      LastMatchingHeaderWins(init, k);
    }
  }

  /** A non-empty answer is the capture of one of the headers. */
  lemma {:induction false} AnswerComesFromAHeader(headers: seq<string>)
    requires LastMatch(headers) != ""
    ensures exists k :: 0 <= k < |headers| && Captures(headers[k]) == Some(LastMatch(headers))
  {
    var init := headers[..|headers| - 1];
    if Captures(headers[|headers| - 1]).None? {
      AnswerComesFromAHeader(init);
      var k :| 0 <= k < |init| && Captures(init[k]) == Some(LastMatch(init));
      assert headers[k] == init[k];
    }
  }

  /** One more header: a match replaces the running answer, no match keeps it. */
  lemma LastMatchStep(headers: seq<string>, i: nat)
    requires i < |headers|
    ensures LastMatch(headers[..i + 1]) ==
              if Captures(headers[i]).Some? then Captures(headers[i]).value else LastMatch(headers[..i])
  {
    assert headers[..i + 1][..i] == headers[..i];
  }

  /** `get_session_id(response_headers)`; None stands for the panic of `to_str().expect`
      on a header that is not visible ASCII. */
  method GetSessionId(headers: seq<string>) returns (r: Option<string>)
    ensures r.None? <==> exists k :: 0 <= k < |headers| && !Visible(headers[k])
    ensures r.Some? ==> r.value == LastMatch(headers)
  {
    var sessionId := "";
    var i := 0;
    while i < |headers|
      invariant 0 <= i <= |headers|
      invariant forall k :: 0 <= k < i ==> Visible(headers[k])
      invariant sessionId == LastMatch(headers[..i])
    {
      var cookieStr := headers[i];
      if !Visible(cookieStr) {
        assert !Visible(headers[i]);
        return None;
      }
      var caps := Captures(cookieStr);
      LastMatchStep(headers, i);
      if caps.Some? {
        sessionId := caps.value;
      }
      i := i + 1;
    }
    assert headers[..i] == headers;
    return Some(sessionId);
  }
}
