/**
 * The login and sign-up decisions of the first generation of the server
 * (src/handlers.rs), over what their collaborators return. Its auth module
 * (src/auth.rs) is not part of this model: its three calls appear as the
 * outcomes they produce.
 */
module LegacyHandlers {
  import opened Wrappers
  import opened Forms
  import opened Tables
  import opened Rejections

  datatype AuthCalls = AuthCalls(
    passwordVerifies: (string, string) -> bool,     // verify_password(hash, pw).is_ok()
    newTokenPair: Option<(string, string)>,          // get_new_token_pair(), when it succeeds
    newHashedPassword: string -> Option<string>)    // get_new_hashed_password(pw), when it succeeds

  /** The form names an existing user and the password verifies against the stored hash. */
  predicate CredentialsAccepted(form: Form, auth: AuthCalls, db: DbCalls)
  {
    && HasLoginFields(form)
    && db.getUserByEmail(form["email"]).Ok?
    && auth.passwordVerifies(db.getUserByEmail(form["email"]).value.hashedPassword, form["password"])
  }

  /**
   * handle_login: a missing field is a bad request; an unknown email and a
   * wrong password are the same `NotFound`; once the password verified, any
   * failure is an internal error; success is the id of the refreshed session.
   */
  function HandleLogin(form: Form, auth: AuthCalls, db: DbCalls): (r: Result<string, Error>)
    ensures !HasLoginFields(form) ==> r == Err(BadRequest)
    ensures HasLoginFields(form) && !CredentialsAccepted(form, auth, db) ==> r == Err(NotFound)
    ensures CredentialsAccepted(form, auth, db) ==> r.Ok? || r == Err(InternalServerError)
    ensures r.Ok? <==> CredentialsAccepted(form, auth, db) && auth.newTokenPair.Some?
                       && db.refreshUserSession(db.getUserByEmail(form["email"]).value.id, auth.newTokenPair.value).Ok?
    ensures r.Ok? ==> r.value == db.refreshUserSession(db.getUserByEmail(form["email"]).value.id, auth.newTokenPair.value).value
  {
    if "email" !in form || "password" !in form then Err(BadRequest)
    else
      var email, pw := form["email"], form["password"];
      match db.getUserByEmail(email)
      case Err(_) => Err(NotFound)
      case Ok(user) =>
        if !auth.passwordVerifies(user.hashedPassword, pw) then Err(NotFound)
        else
          match auth.newTokenPair
          case None => Err(InternalServerError)
          case Some(tokenPair) =>
            match db.refreshUserSession(user.id, tokenPair)
            case Ok(createdSessionId) => Ok(createdSessionId)
            case Err(_) => Err(InternalServerError)
  }

  /**
   * handle_signup: a missing field is a bad request; a hashing, token or
   * store failure is an internal error; success is the new session's id.
   */
  function HandleSignup(form: Form, auth: AuthCalls, db: DbCalls): (r: Result<string, Error>)
    ensures !HasSignupFields(form) ==> r == Err(BadRequest)
    ensures HasSignupFields(form) ==> r.Ok? || r == Err(InternalServerError)
    ensures HasSignupFields(form) && auth.newHashedPassword(form["password"]).None? ==> r == Err(InternalServerError)
    ensures r.Ok? <==> HasSignupFields(form) && auth.newHashedPassword(form["password"]).Some? && auth.newTokenPair.Some?
                       && db.createNewUser(form["email"], form["handle"], auth.newHashedPassword(form["password"]).value,
                                           auth.newTokenPair.value).Ok?
    ensures r.Ok? ==> r.value == db.createNewUser(form["email"], form["handle"], auth.newHashedPassword(form["password"]).value,
                                                  auth.newTokenPair.value).value
  {
    if !HasSignupFields(form) then Err(BadRequest)
    else
      var handle, email, password := form["handle"], form["email"], form["password"];
      match auth.newHashedPassword(password)
      case None => Err(InternalServerError)
      case Some(hashedPw) =>
        match auth.newTokenPair
        case None => Err(InternalServerError)
        case Some(tokenPair) =>
          match db.createNewUser(email, handle, hashedPw, tokenPair)
          case Ok(sessionId) => Ok(sessionId)
          case Err(_) => Err(InternalServerError)
  }

  /** An unknown email and a wrong password for a known one give the same answer. */
  lemma LoginHidesWhichCheckFailed(form: Form, auth: AuthCalls, unknown: DbCalls, known: DbCalls)
    requires HasLoginFields(form)
    requires unknown.getUserByEmail(form["email"]).Err?
    requires known.getUserByEmail(form["email"]).Ok?
    requires !auth.passwordVerifies(known.getUserByEmail(form["email"]).value.hashedPassword, form["password"])
    ensures HandleLogin(form, auth, unknown) == HandleLogin(form, auth, known) == Err(NotFound)
  {
  }

  /** When hashing fails, sign-up reaches neither the token generator nor the store. */
  lemma SignupHashFailureSkipsStore(form: Form, auth: AuthCalls, db: DbCalls, other: DbCalls, tokens: Option<(string, string)>)
    requires HasSignupFields(form) && auth.newHashedPassword(form["password"]).None?
    ensures HandleSignup(form, auth, db) == HandleSignup(form, auth.(newTokenPair := tokens), other)
  {
  }
}
