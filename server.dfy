/**
 * The recovery handler of the first generation (`handle_rejection` in
 * src/main.rs): which status, and which single header, a rejection is
 * answered with.
 */
module Server {
  import opened Http
  import opened Rejections
  import opened Warp

  /** The placeholder header every reply but the login redirect is given. */
  const NoHeader: (string, string) := ("", "")

  /** The status and header for one of the server's own errors. */
  function ErrorReply(err: Error): (r: (int, (string, string)))
    ensures IsStatusCode(r.0)
    ensures r.1 != NoHeader <==> err == Unauthorized
    ensures err == BadRequest ==> r == (400, NoHeader)
    ensures err == NotFound ==> r == (404, NoHeader)
    ensures err == InternalServerError ==> r == (500, NoHeader)
    ensures err == Unauthorized ==> r == (303, ("Location", "/login"))
  {
    match err
    case BadRequest => (400, NoHeader)
    case NotFound => (404, NoHeader)
    case InternalServerError => (500, NoHeader)
    case Unauthorized => (303, ("Location", "/login"))
  }

  /**
   * handle_rejection: the server's own error decides when there is one;
   * otherwise a method mismatch is 405, warp's not-found 404 and anything
   * else 500.
   */
  function HandleRejection(rej: Rejection): (r: (int, (string, string)))
    ensures IsStatusCode(r.0)
    ensures FindError(rej.causes).Some? ==> r == ErrorReply(FindError(rej.causes).value)
    ensures FindError(rej.causes).None? ==> r.1 == NoHeader
    ensures FindError(rej.causes).None? ==>
              r.0 == (if HasMethodNotAllowed(rej) then 405 else if IsNotFound(rej) then 404 else 500)
    ensures r.1 != NoHeader <==> exists i :: 0 <= i < |rej.causes| && rej.causes[i] == Legacy(Unauthorized)
                                            && forall j :: 0 <= j < i ==> !rej.causes[j].Legacy?
  {
    FindErrorFirst(rej.causes);
    match FindError(rej.causes)
    case Some(err) => ErrorReply(err)
    case None =>
      if HasMethodNotAllowed(rej) then (405, NoHeader)
      else if IsNotFound(rej) then (404, NoHeader)
      else (500, NoHeader)
  }

  /**
   * The server's own errors take priority: whatever further causes a
   * rejection carrying one collects, the reply stays the same.
   */
  lemma ErrorTakesPriority(causes: seq<Cause>, more: seq<Cause>)
    requires FindError(causes).Some?
    ensures HandleRejection(Rejection(causes + more)) == HandleRejection(Rejection(causes))
  {
    FindErrorFirst(causes);
    var i :| 0 <= i < |causes| && causes[i] == Legacy(FindError(causes).value)
             && forall j :: 0 <= j < i ==> !causes[j].Legacy?;
    var all := causes + more;
    assert all[i] == causes[i];
    FindErrorFirst(all);
  }
}
