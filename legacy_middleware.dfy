/**
 * The reply decorators of the first generation (src/middleware.rs) that
 * differ from the second: the error kind of `with_new_session`, and the
 * cookie gate of the chat page. `verify_cookie` of src/auth.rs, which is not
 * part of this model, appears as the verdict it returns.
 */
module LegacyMiddleware {
  import opened Wrappers
  import opened Http
  import opened Rejections
  import Middleware

  /** with_new_session: the session redirect, or `InternalServerError` for an invalid cookie value. */
  function WithNewSession(sessionId: string): (r: Result<Response, Error>)
    ensures r.Ok? <==> IsHeaderValue(sessionId)
    ensures r.Ok? ==> r.value == Middleware.SessionRedirect(sessionId)
    ensures r.Err? ==> r.error == InternalServerError
  {
    Middleware.SessionCookieIsHeaderValue(sessionId);
    if IsHeaderValue(Middleware.SessionCookie(sessionId)) then Ok(Middleware.SessionRedirect(sessionId))
    else Err(InternalServerError)
  }

  /**
   * with_session_id_verification: passes exactly when an `id` cookie is
   * present and `verify_cookie` accepts it, otherwise rejects `Unauthorized`.
   * It is given no access to the session table.
   */
  function WithSessionIdVerification(maybeCookie: Option<string>, verifyCookie: string -> bool): (r: Result<(), Error>)
    ensures r.Ok? <==> maybeCookie.Some? && verifyCookie(maybeCookie.value)
    ensures r.Err? ==> r.error == Unauthorized
  {
    if maybeCookie.Some? && verifyCookie(maybeCookie.value) then Ok(())
    else Err(Unauthorized)
  }

  /** Both generations answer a session id the same way on success, and fail on the same ids. */
  lemma GenerationsAgreeOnNewSession(sessionId: string)
    ensures WithNewSession(sessionId).Ok? <==> Middleware.WithNewSession(sessionId).Ok?
    ensures WithNewSession(sessionId).Ok? ==> WithNewSession(sessionId).value == Middleware.WithNewSession(sessionId).value
  {
  }
}
