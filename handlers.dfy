/**
 * The login, sign-up and chat decisions of the second generation of the
 * server (src/routes/handlers.rs). They call the auth helpers of
 * src/routes/handlers/auth.rs; the store and the template engine appear as
 * what they return.
 */
module Handlers {
  import opened Wrappers
  import opened Http
  import opened Forms
  import opened Tables
  import opened Auth
  import opened AppRejections

  /** The form names an existing user and the password verifies against the stored hash. */
  predicate CredentialsAccepted(form: Form, auth: Config, db: DbCalls)
  {
    && HasLoginFields(form)
    && db.getUserByEmail(form["email"]).Ok?
    && VerifyPassword(auth, db.getUserByEmail(form["email"]).value.hashedPassword, form["password"]).Ok?
  }

  /**
   * handle_login: a missing field, an unknown email and a wrong password all
   * give the default rejection (400); once the password verified, any failure
   * is a 500; success is the id of the refreshed session.
   */
  function HandleLogin(form: Form, auth: Config, db: DbCalls): (r: Result<string, AppRejection>)
    ensures !CredentialsAccepted(form, auth, db) ==> r == Err(Default())
    ensures CredentialsAccepted(form, auth, db) ==> r.Ok? || r == Err(New(None, 500))
    ensures r.Ok? <==> CredentialsAccepted(form, auth, db) && GetNewTokenPair(auth).Ok?
                       && db.refreshUserSession(db.getUserByEmail(form["email"]).value.id, GetNewTokenPair(auth).value).Ok?
    ensures r.Ok? ==> r.value == db.refreshUserSession(db.getUserByEmail(form["email"]).value.id, GetNewTokenPair(auth).value).value
  {
    if HasLoginFields(form) then
      var email, password := form["email"], form["password"];
      match db.getUserByEmail(email)
      case Err(_) => Err(Default())
      case Ok(user) =>
        if VerifyPassword(auth, user.hashedPassword, password).Err? then Err(Default())
        else
          match GetNewTokenPair(auth)
          case Err(_) => Err(New(None, 500))
          case Ok(tokenPair) =>
            match db.refreshUserSession(user.id, tokenPair)
            case Ok(createdSessionId) => Ok(createdSessionId)
            case Err(_) => Err(New(None, 500))
    else
      Err(Default())
  }

  /**
   * handle_signup: a missing field gives the default rejection (400); a
   * hashing, token or store failure is a 500; success is the new session's id.
   * `salt` is the salt drawn from the OS for this call.
   */
  function HandleSignup(form: Form, auth: Config, salt: string, db: DbCalls): (r: Result<string, AppRejection>)
    ensures !HasSignupFields(form) ==> r == Err(Default())
    ensures HasSignupFields(form) ==> r.Ok? || r == Err(New(None, 500))
    ensures HasSignupFields(form) && GetNewHashedPassword(auth, salt, form["password"]).Err? ==> r == Err(New(None, 500))
    ensures r.Ok? <==> HasSignupFields(form) && GetNewHashedPassword(auth, salt, form["password"]).Ok? && GetNewTokenPair(auth).Ok?
                       && db.createNewUser(form["email"], form["handle"], GetNewHashedPassword(auth, salt, form["password"]).value,
                                           GetNewTokenPair(auth).value).Ok?
    ensures r.Ok? ==> r.value == db.createNewUser(form["email"], form["handle"], GetNewHashedPassword(auth, salt, form["password"]).value,
                                                  GetNewTokenPair(auth).value).value
  {
    if HasSignupFields(form) then
      var handle, email, password := form["handle"], form["email"], form["password"];
      match GetNewHashedPassword(auth, salt, password)
      case Err(_) => Err(New(None, 500))
      case Ok(hashedPw) =>
        match GetNewTokenPair(auth)
        case Err(_) => Err(New(None, 500))
        case Ok(tokenPair) =>
          match db.createNewUser(email, handle, hashedPw, tokenPair)
          case Ok(sessionId) => Ok(sessionId)
          case Err(_) => Err(New(None, 500))
    else
      Err(Default())
  }

  /** The rejection that sends the browser to the login page: 303 with `Location: /login`. */
  function LoginRedirect(): (r: AppRejection)
    ensures r.statusCode == 303
    ensures Names(r.headers) == {"Location"} && Lookup(r.headers, "Location") == ["/login"]
  {
    New(Some(Insert([], "Location", "/login")), 303)
  }

  /** A cookie is present, verify_cookie accepts it, and a session row has it as its id. */
  predicate SessionFound(maybeCookie: Option<string>, auth: Config, db: DbCalls)
  {
    && maybeCookie.Some?
    && VerifyCookie(auth, maybeCookie.value).Ok?
    && db.getSession(maybeCookie.value).Some?
  }

  /**
   * handle_chat: without a cookie, with one verify_cookie rejects, or with one
   * no session has as its id, redirect to the login page; otherwise render the
   * chat page with the session's CSRF token, a failed render being a 500.
   * `renderChat` is the template engine rendering chat.html for a CSRF token.
   */
  function HandleChat(maybeCookie: Option<string>, auth: Config, db: DbCalls, renderChat: string -> Option<string>)
    : (r: Result<string, AppRejection>)
    ensures !SessionFound(maybeCookie, auth, db) ==> r == Err(LoginRedirect())
    ensures SessionFound(maybeCookie, auth, db) ==>
              var csrfToken := db.getSession(maybeCookie.value).value.csrfToken;
              && (r.Ok? <==> renderChat(csrfToken).Some?)
              && (r.Ok? ==> r.value == renderChat(csrfToken).value)
              && (r.Err? ==> r.error == New(None, 500))
  {
    if maybeCookie.Some? && VerifyCookie(auth, maybeCookie.value).Ok? then
      var sessionCookie := maybeCookie.value;
      match db.getSession(sessionCookie)
      case None => Err(LoginRedirect())
      case Some(userSession) =>
        match renderChat(userSession.csrfToken)
        case Some(html) => Ok(html)
        case None => Err(New(None, 500))
    else
      Err(LoginRedirect())
  }

  /** An unknown email, a wrong password and a missing field are indistinguishable to the client. */
  lemma LoginHidesWhichCheckFailed(form: Form, auth: Config, unknown: DbCalls, known: DbCalls, incomplete: Form)
    requires HasLoginFields(form) && !HasLoginFields(incomplete)
    requires unknown.getUserByEmail(form["email"]).Err?
    requires known.getUserByEmail(form["email"]).Ok?
    requires VerifyPassword(auth, known.getUserByEmail(form["email"]).value.hashedPassword, form["password"]).Err?
    ensures HandleLogin(form, auth, unknown) == HandleLogin(form, auth, known) == HandleLogin(incomplete, auth, known)
  {
  }

  /** A cookie verify_cookie rejects never reaches the session store. */
  lemma ChatChecksCookieBeforeStore(cookie: string, auth: Config, db: DbCalls, other: DbCalls, renderChat: string -> Option<string>)
    requires VerifyCookie(auth, cookie).Err?
    ensures HandleChat(Some(cookie), auth, db, renderChat) == HandleChat(Some(cookie), auth, other, renderChat)
  {
  }
}
