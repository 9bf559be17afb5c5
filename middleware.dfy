/**
 * The reply decorators of src/routes/handlers/middleware.rs; the first
 * generation's src/middleware.rs has the same `with_response_headers` and the
 * same session-cookie response, so both are defined here once.
 */
module Middleware {
  import opened Wrappers
  import opened Http
  import opened AppRejections

  /** The seven headers every HTML page is sent with, in insertion order, one value each. */
  const PageHeaders: HeaderMap := [
     Entry("Content-Type", ["text/html; charset=UTF-8"]),
     Entry("Cross-Origin-Embedder-Policy", ["require-corp"]),
     Entry("Cross-Origin-Opener-Policy", ["same-origin"]),
     Entry("Cross-Origin-Resource-Policy", ["same-origin"]),
     Entry("X-CONTENT-TYPE-OPTIONS", ["nosniff"]),
     Entry("X-FRAME-OPTIONS", ["DENY"]),
     Entry("X-XSS-PROTECTION", ["0"])
  ]

  /** with_response_headers: seven `insert`s into an empty map, of seven different names. */
  method WithResponseHeaders() returns (headers: HeaderMap)
    ensures headers == PageHeaders
  {
    headers := [];
    PageHeadersStep(0);
    headers := Insert(headers, "Content-Type", "text/html; charset=UTF-8");
    PageHeadersStep(1);
    headers := Insert(headers, "Cross-Origin-Embedder-Policy", "require-corp");
    PageHeadersStep(2);
    headers := Insert(headers, "Cross-Origin-Opener-Policy", "same-origin");
    PageHeadersStep(3);
    headers := Insert(headers, "Cross-Origin-Resource-Policy", "same-origin");
    PageHeadersStep(4);
    headers := Insert(headers, "X-CONTENT-TYPE-OPTIONS", "nosniff");
    PageHeadersStep(5);
    headers := Insert(headers, "X-FRAME-OPTIONS", "DENY");
    PageHeadersStep(6);
    headers := Insert(headers, "X-XSS-PROTECTION", "0");
    assert PageHeaders[..7] == PageHeaders;
  }

  /** The seven names are different and each holds one value. */
  lemma PageHeadersWellFormed()
    ensures |PageHeaders| == 7 && WellFormed(PageHeaders) && SingleValued(PageHeaders)
  {
  }

  /** The k-th of the seven inserts appends the k-th page header. */
  lemma PageHeadersStep(k: nat)
    requires k < 7
    ensures Insert(PageHeaders[..k], PageHeaders[k].name, PageHeaders[k].values[0]) == PageHeaders[..k + 1]
  {
    PageHeadersWellFormed();
    InsertAbsent(PageHeaders[..k], PageHeaders[k].name, PageHeaders[k].values[0]);
    assert PageHeaders[..k] + [PageHeaders[k]] == PageHeaders[..k + 1];
  }

  /** What a page's response carries under each of the seven names. */
  lemma PageHeadersValues()
    ensures Lookup(PageHeaders, "Content-Type") == ["text/html; charset=UTF-8"]
    ensures Lookup(PageHeaders, "Cross-Origin-Embedder-Policy") == ["require-corp"]
    ensures Lookup(PageHeaders, "Cross-Origin-Opener-Policy") == ["same-origin"]
    ensures Lookup(PageHeaders, "Cross-Origin-Resource-Policy") == ["same-origin"]
    ensures Lookup(PageHeaders, "X-CONTENT-TYPE-OPTIONS") == ["nosniff"]
    ensures Lookup(PageHeaders, "X-FRAME-OPTIONS") == ["DENY"]
    ensures Lookup(PageHeaders, "X-XSS-PROTECTION") == ["0"]
  {
    PageHeadersWellFormed();
    assert Lookup(PageHeaders, "Content-Type") == ["text/html; charset=UTF-8"] by { LookupAt(PageHeaders, 0); }
    assert Lookup(PageHeaders, "Cross-Origin-Embedder-Policy") == ["require-corp"] by { LookupAt(PageHeaders, 1); }
    assert Lookup(PageHeaders, "Cross-Origin-Opener-Policy") == ["same-origin"] by { LookupAt(PageHeaders, 2); }
    assert Lookup(PageHeaders, "Cross-Origin-Resource-Policy") == ["same-origin"] by { LookupAt(PageHeaders, 3); }
    assert Lookup(PageHeaders, "X-CONTENT-TYPE-OPTIONS") == ["nosniff"] by { LookupAt(PageHeaders, 4); }
    assert Lookup(PageHeaders, "X-FRAME-OPTIONS") == ["DENY"] by { LookupAt(PageHeaders, 5); }
    assert Lookup(PageHeaders, "X-XSS-PROTECTION") == ["0"] by { LookupAt(PageHeaders, 6); }
  }


  /** The `Set-Cookie` value carrying a session id. */
  function SessionCookie(sessionId: string): (c: string)
    ensures |c| == |sessionId| + 30
    ensures c[..3] == "id=" && c[|c| - 27..] == "; HttpOnly; SameSite=Strict"
    ensures c[3..|c| - 27] == sessionId
  {
    "id=" + sessionId + "; HttpOnly; SameSite=Strict"
  }

  /** The cookie is a valid header value exactly when the session id is. */
  lemma SessionCookieIsHeaderValue(sessionId: string)
    ensures IsHeaderValue(SessionCookie(sessionId)) <==> IsHeaderValue(sessionId)
  {
    IsHeaderValueConcat("id=", sessionId);
    IsHeaderValueConcat("id=" + sessionId, "; HttpOnly; SameSite=Strict");
  }

  /** The 303 that sets the session cookie and sends the browser to the chat, with an empty body. */
  function SessionRedirect(sessionId: string): (resp: Response)
    ensures resp.status == 303 && resp.body == ""
    ensures Names(resp.headers) == {"Set-Cookie", "Location"}
    ensures Lookup(resp.headers, "Set-Cookie") == [SessionCookie(sessionId)]
    ensures Lookup(resp.headers, "Location") == ["/chat"]
  {
    var withCookie := Insert([], "Set-Cookie", SessionCookie(sessionId));
    InsertSemantics([], "Set-Cookie", SessionCookie(sessionId));
    InsertSemantics(withCookie, "Location", "/chat");
    Response(303, Insert(withCookie, "Location", "/chat"), "")
  }

  /**
   * with_new_session: the session redirect when the cookie is a valid header
   * value, otherwise a 500 rejection without headers.
   */
  function WithNewSession(sessionId: string): (r: Result<Response, AppRejection>)
    ensures r.Ok? <==> IsHeaderValue(sessionId)
    ensures r.Ok? ==> r.value == SessionRedirect(sessionId)
    ensures r.Err? ==> r.error.statusCode == 500 && r.error.headers == []
  {
    SessionCookieIsHeaderValue(sessionId);
    if IsHeaderValue(SessionCookie(sessionId)) then Ok(SessionRedirect(sessionId))
    else Err(New(None, 500))
  }
}
