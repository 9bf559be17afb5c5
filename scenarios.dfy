/**
 * How the pieces work together: a sign-up followed by a login against the
 * database, the chat page as a browser holding an old or a new cookie sees
 * it, and what the recovery handlers make of the handlers' rejections.
 */
module Scenarios {
  import opened Wrappers
  import opened Http
  import opened Forms
  import opened Tables
  import opened Store
  import opened Auth
  import opened AppRejections
  import opened Warp
  import Handlers
  import Middleware
  import LegacyHandlers
  import Server
  import Routes

  /** The collaborators a handler sees when the store holds these tables. */
  function Backed(users: seq<User>, sessions: seq<Session>,
                  refresh: (nat, (string, string)) -> Result<string, DbError>,
                  create: (string, string, string, (string, string)) -> Result<string, DbError>): (db: DbCalls)
    ensures forall email :: db.getUserByEmail(email) == SelectUserByEmail(users, email)
    ensures forall id :: db.getSession(id) == SelectSession(sessions, id)
  {
    DbCalls(email => SelectUserByEmail(users, email), id => SelectSession(sessions, id), refresh, create)
  }

  /**
   * A user signs up and later logs in again, with no database error: the
   * sign-up's session is gone, the login's session is the user's only one,
   * and each session id finds what it should.
   */
  method SignUpThenLogIn(email: string, handle: string, hashedPw: string,
                         signupPair: (string, string), loginPair: (string, string), t0: int, t1: int)
    returns (userId: nat, sessions: seq<Session>)
    requires signupPair.1 != loginPair.1
    ensures SessionsOf(sessions, userId) == [Session(loginPair.1, loginPair.0, userId, t1)]
    ensures SelectSession(sessions, loginPair.1) == Some(Session(loginPair.1, loginPair.0, userId, t1))
    ensures SelectSession(sessions, signupPair.1) == None
    ensures OneSessionPerUser(sessions)
  {
    var db := new Database();
    var created := db.CreateNewUser(email, handle, hashedPw, signupPair, t0, None);
    userId := db.users[|db.users| - 1].id;
    ghost var afterSignup := db.sessions;
    assert afterSignup == [Session(signupPair.1, signupPair.0, userId, t0)];
    var refreshed := db.RefreshUserSession(userId, loginPair, t1, None);
    sessions := db.sessions;
    var row := Session(loginPair.1, loginPair.0, userId, t1);
    ReplaceLeavesExactlyOne(afterSignup, row, userId);
    SelectAfterReplace(afterSignup, row);
    SelectStaleAfterReplace(afterSignup, row, signupPair.1);
  }

  /**
   * After a second login the first login's cookie is sent to the login page,
   * while the new cookie, if it verifies, opens the chat with the new CSRF
   * token. Session ids are assumed not to collide with another user's.
   */
  lemma SecondLoginRevokesFirstCookie(auth: Config, users: seq<User>, rows: seq<Session>, first: Session, second: Session,
                                      refresh: (nat, (string, string)) -> Result<string, DbError>,
                                      create: (string, string, string, (string, string)) -> Result<string, DbError>,
                                      renderChat: string -> Option<string>)
    requires first.userId == second.userId && first.id != second.id
    requires forall i :: 0 <= i < |rows| && rows[i].id in {first.id, second.id} ==> rows[i].userId == first.userId
    requires VerifyCookie(auth, second.id).Ok? && renderChat(second.csrfToken).Some?
    ensures var db := Backed(users, ReplaceSessionsOf(ReplaceSessionsOf(rows, first), second), refresh, create);
            && Handlers.HandleChat(Some(first.id), auth, db, renderChat) == Err(Handlers.LoginRedirect())
            && Handlers.HandleChat(Some(second.id), auth, db, renderChat) == Ok(renderChat(second.csrfToken).value)
  {
    var afterFirst := ReplaceSessionsOf(rows, first);
    forall i | 0 <= i < |afterFirst| && afterFirst[i].id in {first.id, second.id}
      ensures afterFirst[i].userId == first.userId
    {
      assert afterFirst[i] in afterFirst;
    }
    SelectStaleAfterReplace(afterFirst, second, first.id);
    SelectAfterReplace(afterFirst, second);
  }

  /**
   * A cookie issued at sign-up verifies, so with the session row it names in
   * the table the new user reaches the chat page with the session's CSRF
   * token, provided the crates keep their round-trip promises (if the csrf
   * crate checks expiry, for a cookie presented within its 10-second lifetime).
   */
  lemma SignedUpUserReachesChat(auth: Config, users: seq<User>, rows: seq<Session>, userId: nat, now: int,
                                refresh: (nat, (string, string)) -> Result<string, DbError>,
                                create: (string, string, string, (string, string)) -> Result<string, DbError>,
                                renderChat: string -> Option<string>)
    requires CsrfRoundTrips(auth.csrf) && Base64RoundTrips(auth.base64)
    requires GetNewTokenPair(auth).Ok?
    requires forall i :: 0 <= i < |rows| ==> rows[i].id != GetNewTokenPair(auth).value.1
    ensures var pair := GetNewTokenPair(auth).value;
            var db := Backed(users, rows + [Session(pair.1, pair.0, userId, now)], refresh, create);
            Handlers.HandleChat(Some(pair.1), auth, db, renderChat).Ok? <==> renderChat(pair.0).Some?
  {
    var pair := GetNewTokenPair(auth).value;
    IssuedCookieVerifies(auth);
    var all := rows + [Session(pair.1, pair.0, userId, now)];
    assert all[|rows|].id == pair.1;
    assert SelectSession(all, pair.1).value.csrfToken == pair.0;
  }

  /** A session id produced by a base64 encoder always makes a valid cookie: the 500 branch is never taken. */
  lemma IssuedSessionIdMakesCookie(auth: Config)
    requires forall bytes :: IsBase64Text(auth.base64.encode(bytes))
    requires GetNewTokenPair(auth).Ok?
    ensures Middleware.WithNewSession(GetNewTokenPair(auth).value.1)
            == Ok(Middleware.SessionRedirect(GetNewTokenPair(auth).value.1))
  {
    var id := GetNewTokenPair(auth).value.1;
    assert IsBase64Text(id);
    forall i | 0 <= i < |id| ensures IsHeaderValueChar(id[i]) {
      assert IsBase64Char(id[i]);
    }
  }

  /** For every rejection the first generation's login raises, handle_rejection computes 400, 404 or 500, never a redirect. */
  lemma LegacyLoginErrorStatuses(form: Form, auth: LegacyHandlers.AuthCalls, db: DbCalls)
    requires LegacyHandlers.HandleLogin(form, auth, db).Err?
    ensures var reply := Server.HandleRejection(Rejection([Legacy(LegacyHandlers.HandleLogin(form, auth, db).error)]));
            && reply.0 in {400, 404, 500} && reply.1 == Server.NoHeader
            && (reply.0 == 400 <==> !HasLoginFields(form))
  {
    var rej := Rejection([Legacy(LegacyHandlers.HandleLogin(form, auth, db).error)]);
    assert FindError(rej.causes) == Some(LegacyHandlers.HandleLogin(form, auth, db).error);
  }

  /**
   * The rejections the second generation's handlers raise all have a valid
   * status and one value per header, so the recovery handler answers them
   * with exactly their status and headers and never panics.
   */
  lemma HandlerRejectionsAreSent(form: Form, auth: Config, salt: string, db: DbCalls,
                                 maybeCookie: Option<string>, renderChat: string -> Option<string>, sessionId: string,
                                 err: AppRejection)
    requires || Handlers.HandleLogin(form, auth, db) == Err(err)
             || Handlers.HandleSignup(form, auth, salt, db) == Err(err)
             || Handlers.HandleChat(maybeCookie, auth, db, renderChat) == Err(err)
             || Middleware.WithNewSession(sessionId) == Err(err)
    ensures IsStatusCode(err.statusCode)
    ensures err.statusCode in {303, 400, 500}
    ensures Routes.CopyNamed([], Items(err.headers)) == err.headers
  {
    var redirect := Handlers.LoginRedirect();
    assert redirect.headers == [Entry("Location", ["/login"])];
    assert WellFormed(err.headers) && SingleValued(err.headers);
    Routes.SingleValuedCopiedUnchanged(err.headers);
  }
}
