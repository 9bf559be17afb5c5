# warp-chat session core, modelled in Dafny

warp-chat is a small chat server built on warp. A visitor signs up or logs in.
The server then stores one session row for that user and sets the session id
as an `id` cookie. In the second generation the chat page is shown only for
a cookie that the CSRF crate accepts and that names a stored session; the
first generation shows it for any cookie the CSRF crate accepts. The code
exists in two generations:

- The first is `src/handlers.rs`, `src/handlers/db.rs`, `src/middleware.rs`
  and `src/main.rs`. Its errors are the four-variant `rejections::Error`.
- The second lives under `src/routes/`. Its rejection is an `AppRejection`,
  which carries a status code and a header map.

This project models the decision logic of both generations and proves
properties about it. The two `db.rs` files run identical statements for the
four operations they share, and the two `with_response_headers` are
identical. Each is modelled once, and the Model table cites the second
generation's copy.

Module by module:

- **Tables**: the `users` and `sessions` tables as sequences of rows. Each
  SELECT ... LIMIT 1 is a first-match scan. The DELETE of
  `refresh_user_session` is a filter. Lemmas show that a refresh leaves the
  user exactly one session and keeps the one-session-per-user invariant. They
  also show that the new session id is found afterwards and the old one is
  not.
- **Store**: a `Database` class whose fields are the two tables and the next
  user id. `create_new_user` and `refresh_user_session` are methods that run
  their statements one by one on a transaction-local copy, and commit at the
  end. A `fault` parameter names the statement at which the database reports
  an error. On an error nothing is committed.
- **Auth**: the helpers of `src/routes/handlers/auth.rs`. The argon2, csrf and
  base64 crates are function-valued fields of a `Config` value. Their
  promises (hash round-trip, cookie round-trip, base64 round-trip) and one
  idealisation of argon2 (binding: only the hashed password verifies) are
  predicates that lemmas take as hypotheses.
- **Handlers** and **LegacyHandlers**: `handle_login`, `handle_signup` and
  `handle_chat` as decision trees over what their collaborators return.
- **Middleware** and **LegacyMiddleware**: the fixed security headers, the
  session cookie and its 303 response, and the cookie gate of the first
  generation.
- **Server**: `handle_rejection` of `src/main.rs`.
- **Routes**: `handle_rejection` of `src/routes.rs`, including its header
  copy loop and the panic when the status code is invalid.
- **Http**: the parts of the http crate those functions rely on. It covers
  the header map, `insert`, iteration, header-value validity and
  status-code validity.
- **Warp**: a rejection as a list of causes, with `find`.
- **Scenarios**: end-to-end properties. One runs a sign-up and then a login
  against a `Database`. Another shows that a second login revokes the first
  cookie. Others cover the statuses that rejections end up with.

Behaviour of the code worth knowing:

- A wrong password, an unknown email and a missing field all give status
  400 in the second generation. Only the first generation uses `NotFound`.
- The token lifetime is `ONE_WEEK_SECONDS = 10` seconds.
- `verify_cookie` returns the base64 decoder's error or the csrf crate's
  error. Its callers only test `is_ok()`, so no reply depends on which step
  failed. It checks no expiry itself.
- The session id is the second element of the token pair (the cookie), and
  the CSRF token is the first.
- The first generation's chat gate only verifies the cookie cryptographically.
  It never looks up the session row. A stale but well-formed cookie passes it.
- In the second generation, a chat request without a valid session is
  redirected with 303 to `/login` by the handler itself; it is not rejected.
  In the first generation, a missing or failing cookie is rejected with
  `Unauthorized`, which `handle_rejection` turns into 303 to `/login`; a
  stale cookie that verifies is let through.

## Model

| member | source | states |
|---|---|---|
| Http.Insert | src/routes.rs:24 | `HeaderMap::insert` replaces an entry already holding the name or appends a new one, so the map grows by at most one entry; what each name holds afterwards is stated by `Http.InsertSemantics` |
| Http.Items | src/routes.rs:22 | `for (name, value) in map` yields each entry's name with its first value and `None` with each later value, so every name it yields is one of the map's names |
| Http.InsertSemantics | src/routes.rs:24 | after `insert` the name holds exactly the one value, every other name keeps its values, the name set gains the name, the length grows only for a new name, and every existing entry keeps its position |
| Http.InsertLookup | src/routes.rs:24 | after `insert` the name holds exactly the one value and every other name keeps its values |
| Http.InsertNames | src/routes.rs:24 | after `insert` the name set gains the name, and the map grows by one entry exactly when the name was new |
| Http.InsertKeepsPositions | src/routes.rs:24 | `insert` keeps every existing entry at its position, with the same name |
| Http.InsertAbsent | src/routes/handlers/middleware.rs:12-34 | inserting a name the map does not hold appends one entry with that single value at the end |
| Http.LookupAt | src/routes/handlers/middleware.rs:11-37 | `get_all` of a name returns the values of the first entry that carries it |
| Http.IsHeaderValueConcat | src/routes/handlers/middleware.rs:40-41 | a concatenation is a valid header value iff both parts are |
| AppRejections.New | src/routes/rejections.rs:9-20 | the status code is stored unchanged; `None` gives an empty header map and `Some(h)` keeps exactly `h` |
| AppRejections.Default | src/routes/rejections.rs:22-29 | no headers, status 400 |
| Warp.FindAppRejection | src/routes.rs:17 | `None` iff no cause is an `AppRejection`; a found rejection is one of the causes |
| Warp.FindError | src/main.rs:166 | `None` iff no cause is a `rejections::Error`; a found error is one of the causes |
| Warp.FindAppRejectionFirst | src/routes.rs:17 | the found `AppRejection` is the first one among the causes, and the first one is always the one found |
| Warp.FindErrorFirst | src/main.rs:166 | the found error is the first one among the causes, and the first one is always the one found |
| Tables.FirstIndex | src/routes/handlers/db.rs:103-107 | `LIMIT 1`: the index of the first row whose key matches, or the table length when none does |
| Tables.SelectSession | src/routes/handlers/db.rs:101-123 | `get_session(id)` is `Some` iff a row has that id, and then it is the first such row |
| Tables.SelectUserByEmail | src/routes/handlers/db.rs:150-166 | Ok iff a row has that email, and then it is the first such row; otherwise `RowNotFound` |
| Tables.SelectUserBySession | src/routes/handlers/db.rs:125-148 | `Some` iff a session with the id has an owner row, and the result is that owner with an empty password hash |
| Tables.SessionsOf | src/routes/handlers/db.rs:83 | a row is among those selected by `user_id = ?` iff it is in the table and belongs to that user |
| Tables.DeleteSessionsOf | src/routes/handlers/db.rs:83 | a row survives the DELETE iff it was in the table and belongs to another user |
| Tables.SessionsOfAppend | src/routes/handlers/db.rs:83-86 | a user's sessions in a concatenation are their sessions in each part, in order |
| Tables.DeleteSessionsOfSessions | src/routes/handlers/db.rs:83 | after the DELETE the user has no session and every other user keeps exactly theirs |
| Tables.ReplaceSessionsOf | src/routes/handlers/db.rs:81-94 | the DELETE then INSERT of `refresh_user_session`: the new row comes last, and a row is in the result iff it is the new row or an old row of another user |
| Tables.ReplaceLeavesExactlyOne | src/routes/handlers/db.rs:81-94 | after a refresh the user's sessions are exactly the new row, and other users' sessions are unchanged |
| Tables.ReplaceKeepsOneSessionPerUser | src/routes/handlers/db.rs:75-99 | a refresh preserves at most one session per user |
| Tables.NoSessionsOfUnusedId | src/routes/handlers/db.rs:57-68 | a user id no row refers to has no sessions |
| Tables.AppendFreshUserSessionKeepsOneSessionPerUser | src/routes/handlers/db.rs:57-68 | the new user's session insert gives that user exactly one session and keeps the invariant |
| Tables.SelectAfterReplace | src/routes/handlers/db.rs:75-123 | after `refresh_user_session(u, (c, k))`, `get_session(k)` returns the new row (user `u`, token `c`), unless another user's session already has id `k` |
| Tables.SelectStaleAfterReplace | src/routes/handlers/db.rs:75-123 | after a refresh, an earlier session id of the same user that differs from the new one finds nothing |
| Store.Database.CreateNewUser | src/routes/handlers/db.rs:36-73 | fails iff the begin, an insert or the commit fails, and then both tables are unchanged; on success it appends one user row with the next id and one session row (id `token_pair.1`, token `token_pair.0`, that user), returns `token_pair.1`, and keeps the invariants |
| Store.Database.RefreshUserSession | src/routes/handlers/db.rs:75-99 | fails iff the begin, the statement or the commit fails, and then the sessions are unchanged; on success the sessions are the old ones minus the user's plus the new row, the users are untouched, the result is `token_pair.1`, and at most one session per user is kept |
| Auth.SprinklePepper | src/routes/handlers/auth.rs:26-30 | the pepper immediately followed by the password |
| Auth.PepperIsInjective | src/routes/handlers/auth.rs:26-30 | under one pepper, different passwords stay different |
| Auth.GetNewTokenPair | src/routes/handlers/auth.rs:24-41 | succeeds iff the csrf crate generates a pair with TTL 10, and returns (token, cookie) in that order, each base64-encoded |
| Auth.VerifyCookie | src/routes/handlers/auth.rs:43-50 | fails with the decoder's error if base64 decoding fails; otherwise succeeds iff `parse_cookie` accepts the bytes |
| Auth.VerifyTokenPair | src/routes/handlers/auth.rs:52-55 | always Ok, whatever its inputs |
| Auth.GetNewHashedPassword | src/routes/handlers/auth.rs:57-66 | succeeds iff argon2 hashes the peppered password with the salt, and returns the PHC rendering of that hash |
| Auth.VerifyPassword | src/routes/handlers/auth.rs:68-72 | a stored hash that does not parse fails before any comparison; otherwise the peppered candidate is checked against it |
| Auth.HashedPasswordVerifies | src/routes/handlers/auth.rs:57-72 | when argon2 round-trips, a freshly hashed password verifies against its own hash |
| Auth.OnlyHashedPasswordVerifies | src/routes/handlers/auth.rs:57-72 | with an ideal argon2, no password other than the hashed one verifies against the hash |
| Auth.IssuedCookieVerifies | src/routes/handlers/auth.rs:36-50 | when the csrf crate and base64 round-trip, a cookie from `get_new_token_pair` passes `verify_cookie` (if the crate checks expiry in `parse_cookie`, only within the token's 10-second lifetime) |
| LegacyHandlers.HandleLogin | src/handlers.rs:7-33 | missing field gives `BadRequest`; unknown email or wrong password gives `NotFound`; after a verified password a token or refresh failure gives `InternalServerError`; Ok iff all succeed, with refresh's session id |
| LegacyHandlers.HandleSignup | src/handlers.rs:35-59 | missing field gives `BadRequest`; a hashing failure gives `InternalServerError`; Ok iff hashing, tokens and `create_new_user` succeed, with its session id |
| LegacyHandlers.LoginHidesWhichCheckFailed | src/handlers.rs:18-32 | an unknown email and a wrong password give the same `NotFound` |
| LegacyHandlers.SignupHashFailureSkipsStore | src/handlers.rs:39-44 | after a hashing failure the answer does not depend on the token generator or the store |
| Handlers.HandleLogin | src/routes/handlers.rs:31-50 | missing field, unknown email and wrong password all give the default 400; after a verified password a failure gives 500; Ok iff all succeed, with refresh's session id |
| Handlers.HandleSignup | src/routes/handlers.rs:52-76 | missing field gives 400; a hashing, token or store failure gives 500; Ok iff all succeed, with `create_new_user`'s session id |
| Handlers.LoginRedirect | src/routes/handlers.rs:94-97 | status 303 whose only header is `Location: /login` |
| Handlers.HandleChat | src/routes/handlers.rs:78-98 | without a cookie, with one `verify_cookie` rejects, or with no session row for it: the login redirect; otherwise Ok iff the page renders for the session's CSRF token, else 500 |
| Handlers.LoginHidesWhichCheckFailed | src/routes/handlers.rs:31-50 | unknown email, wrong password and missing field give the same rejection |
| Handlers.ChatChecksCookieBeforeStore | src/routes/handlers.rs:79-81 | a cookie `verify_cookie` rejects gets the same answer whatever the session table holds |
| Middleware.WithResponseHeaders | src/routes/handlers/middleware.rs:11-37 | seven `insert`s of fresh names yield exactly the seven listed entries in order |
| Middleware.PageHeadersStep | src/routes/handlers/middleware.rs:12-34 | the k-th of the seven inserts appends the k-th page header to the first k |
| Middleware.PageHeadersWellFormed | src/routes/handlers/middleware.rs:11-37 | seven distinct names, one value each |
| Middleware.PageHeadersValues | src/routes/handlers/middleware.rs:11-37 | the values under each of the seven names, including `X-FRAME-OPTIONS: DENY` and `X-XSS-PROTECTION: 0` |
| Middleware.SessionCookie | src/routes/handlers/middleware.rs:40-41 | `id=`, then the session id, then `; HttpOnly; SameSite=Strict` |
| Middleware.SessionCookieIsHeaderValue | src/routes/handlers/middleware.rs:40-43 | the cookie is a valid header value iff the session id is |
| Middleware.SessionRedirect | src/routes/handlers/middleware.rs:43-49 | status 303, the cookie under `Set-Cookie`, `Location: /chat`, empty body |
| Middleware.WithNewSession | src/routes/handlers/middleware.rs:39-53 | Ok iff the session id makes a valid header value, then the session redirect; else 500 with no headers |
| LegacyMiddleware.WithNewSession | src/middleware.rs:39-53 | Ok iff the session id makes a valid header value, then the session redirect; else `InternalServerError` |
| LegacyMiddleware.WithSessionIdVerification | src/middleware.rs:55-68 | passes iff an `id` cookie is present and `verify_cookie` accepts it, else `Unauthorized`; it has no access to the session table |
| LegacyMiddleware.GenerationsAgreeOnNewSession | src/middleware.rs:39-53 | both generations accept the same session ids, with the same response |
| Server.ErrorReply | src/main.rs:166-181 | BadRequest 400, NotFound 404, InternalServerError 500, Unauthorized 303 with `Location: /login`; only Unauthorized sets a header |
| Server.HandleRejection | src/main.rs:158-188 | the first server error decides; otherwise MethodNotAllowed 405, not-found 404, anything else 500, all with the empty header; a header is set iff the first server error is Unauthorized |
| Server.ErrorTakesPriority | src/main.rs:166-188 | once a rejection carries a server error, further causes do not change the answer |
| Routes.CopyNamed | src/routes.rs:19-26 | the header map the copy loop leaves after a run of items: every name present at the start is still present, and every name an item carries has been inserted |
| Routes.FirstValues | src/routes.rs:22-26 | with no empty entry, the same names in order, each with its first value |
| Routes.CopyNamedAppend | src/routes.rs:22-26 | the loop over a concatenation is the loop over the second part, started where the first ended |
| Routes.CopyNamedUnnamed | src/routes.rs:22-26 | items without a name change nothing |
| Routes.CopyNamedItems | src/routes.rs:19-26 | copying a well-formed map keeps each name, in order, with only its first value |
| Routes.SingleValuedCopiedUnchanged | src/routes.rs:19-26 | a map filled by `insert` alone is copied unchanged |
| Routes.CopyHeaders | src/routes.rs:22-26 | the loop yields the fold of `insert` over the named items, and for a well-formed map the first values |
| Routes.HandleRejection | src/routes.rs:16-41 | the first `AppRejection` gives its own status and copied headers, or a panic when the status is outside 100..999; otherwise 405, 404 or 500 without headers; every body is empty |
| Scenarios.SignUpThenLogIn | src/routes/handlers/db.rs:36-99 | after sign-up then login, the user's only session is the login's, its id finds it, and the sign-up's id finds nothing |
| Scenarios.SecondLoginRevokesFirstCookie | src/routes/handlers.rs:78-98 | after a second login the first cookie gets the login redirect and the second opens the chat with its CSRF token |
| Scenarios.SignedUpUserReachesChat | src/routes/handlers.rs:78-90 | the cookie issued at sign-up, with its session row stored, opens the chat whenever the page renders (if the crate checks expiry in `parse_cookie`, only within the token's 10-second lifetime) |
| Scenarios.IssuedSessionIdMakesCookie | src/routes/handlers/middleware.rs:39-53 | a session id from a base64 encoder always yields the session redirect, never the 500 |
| Scenarios.LegacyLoginErrorStatuses | src/main.rs:166-181 | for every first-generation login error `handle_rejection` computes status 400, 404 or 500 with the empty placeholder header, never a redirect, and 400 exactly for a missing field |
| Scenarios.HandlerRejectionsAreSent | src/routes.rs:17-28 | every second-generation handler rejection has status 303, 400 or 500 and is copied with exactly its headers, so it never panics |

## Left out

- The websocket hub (`src/websocket.rs`, `src/routes/handlers/websocket.rs`) is left out. Its substance is concurrency: tokio tasks, channels and an atomic counter.
- Route wiring is left out. This covers `main`, `bind_routes` and the `handle_*_routes` filter builders, which are warp plumbing.
- Tera rendering is left out. The chat renderer is a parameter that may fail.
- Environment and secret loading, dotenv and `process::exit` are left out. They are startup I/O. The pepper and the key are fields of `Auth.Config`.
- The internals of argon2, the ChaCha20-Poly1305 CSRF crate and base64 are left out. Their round-trip promises are lemma hypotheses, not facts.
- Token expiry is not modelled. `verify_cookie` (src/routes/handlers/auth.rs:43-50) only decodes the cookie and calls the csrf crate's `parse_cookie`, and `verify_token_pair` (src/routes/handlers/auth.rs:52-55) is a stub, so the code shown checks no expiry itself. Whether the 10-second TTL of src/routes/handlers/auth.rs:24 has any effect depends on `parse_cookie`, which the model leaves uninterpreted. If it does check expiry, `CsrfRoundTrips`, `IssuedCookieVerifies` and `SignedUpUserReachesChat` describe a cookie presented within that lifetime.
- The random salt (`OsRng`) is a parameter of `GetNewHashedPassword` and `Handlers.HandleSignup`.
- `src/auth.rs`, the first generation's auth module, is not part of this model. `LegacyHandlers` and `LegacyMiddleware` take its verdicts as parameters.
- SQL engine details are left out: `unixepoch()` becomes a `now` parameter, and uniqueness constraints and pool failures are not modelled. Any statement can fail through the `fault` parameter.
- `Store.Database.CreateNewUser`: assigned user ids are unbounded naturals and increase by one, as SQLite's rowid does for a table without deletions. The source's `u32` and `i64` widths are not modelled.
- `Server.HandleRejection` gives only the (status, header) pair that `handle_rejection` computes. In the running program every reply but the Unauthorized redirect goes out as 500: `.header("", "")` (src/main.rs:190-193) names an empty header, which the http builder rejects, and warp answers a builder error with 500. That library behaviour is not modelled.
- Header names are kept as written. The http crate lower-cases them, but every name used here is compared with itself, so this changes no result.
- `Middleware.SessionRedirect`: the response builder's `.header` appends. The model uses `insert`, which gives the same map here because the two names differ and the map starts empty.
- `Middleware.WithResponseHeaders`: how warp's `with::headers` merges these headers into a reply is not modelled; only the header map it is given is.
- `get_session` and `get_user_by_session` also map database errors to `None`; the model's lookups cannot fail.
