/**
 * The `users` and `sessions` tables and what the SQL statements of
 * src/routes/handlers/db.rs (and the identical ones of src/handlers/db.rs) do
 * to them: each SELECT and DELETE as a function over the rows.
 */
module Tables {
  import opened Wrappers

  /** A row of `users`; `id` is assigned by the database. */
  datatype User = User(id: nat, email: string, handle: string, hashedPassword: string)

  /** A row of `sessions`; `id` is the session cookie itself. */
  datatype Session = Session(id: string, csrfToken: string, userId: nat, createdAt: int)

  /** The statement of a transaction at which the database can report an error. */
  datatype DbStep = Begin | InsertUser | InsertSession | ReplaceSessions | Commit

  /** `sqlx::Error`: no row matched, or a statement failed. */
  datatype DbError = RowNotFound | Failed(step: DbStep)

  /**
   * The caller's view of the database operations: what each returns. The
   * handlers are written against these outcomes.
   */
  datatype DbCalls = DbCalls(
    getUserByEmail: string -> Result<User, DbError>,
    getSession: string -> Option<Session>,
    refreshUserSession: (nat, (string, string)) -> Result<string, DbError>,
    createNewUser: (string, string, string, (string, string)) -> Result<string, DbError>)

  /** A table scan with `LIMIT 1`: the index of the first row whose key is `wanted`, `|rows|` if none. */
  function FirstIndex<T, K(==)>(rows: seq<T>, key: T -> K, wanted: K): (k: nat)
    ensures k <= |rows|
    ensures k < |rows| ==> key(rows[k]) == wanted
    ensures forall j :: 0 <= j < k ==> key(rows[j]) != wanted
  {
    if rows == [] then 0
    else if key(rows[0]) == wanted then 0
    else 1 + FirstIndex(rows[1..], key, wanted)
  }

  function SessionId(s: Session): string { s.id }

  function UserEmail(u: User): string { u.email }

  function UserId(u: User): nat { u.id }

  /** `SELECT ... FROM sessions WHERE id = ? LIMIT 1` (get_session). */
  function SelectSession(rows: seq<Session>, id: string): (r: Option<Session>)
    ensures r.Some? <==> exists i :: 0 <= i < |rows| && rows[i].id == id
    ensures r.Some? ==> exists i :: 0 <= i < |rows| && rows[i] == r.value && r.value.id == id
                                   && forall j :: 0 <= j < i ==> rows[j].id != id
  {
    var k := FirstIndex(rows, SessionId, id);
    if k < |rows| then Some(rows[k]) else None
  }

  /** `SELECT ... FROM users WHERE email = ? LIMIT 1` (get_user_by_email). */
  function SelectUserByEmail(rows: seq<User>, email: string): (r: Result<User, DbError>)
    ensures r.Ok? <==> exists i :: 0 <= i < |rows| && rows[i].email == email
    ensures r.Err? ==> r.error == RowNotFound
    ensures r.Ok? ==> exists i :: 0 <= i < |rows| && rows[i] == r.value && r.value.email == email
                                 && forall j :: 0 <= j < i ==> rows[j].email != email
  {
    var k := FirstIndex(rows, UserEmail, email);
    if k < |rows| then Ok(rows[k]) else Err(RowNotFound)
  }

  /**
   * `SELECT u.id, u.email, u.handle, '' FROM sessions s INNER JOIN users u
   * ON s.user_id = u.id WHERE s.id = ? LIMIT 1` (get_user_by_session): the
   * owner of a session with that id, with the password hash blanked.
   */
  function SelectUserBySession(sessions: seq<Session>, users: seq<User>, id: string): (r: Option<User>)
    ensures r.Some? <==> exists i, j :: 0 <= i < |sessions| && 0 <= j < |users|
                                       && sessions[i].id == id && users[j].id == sessions[i].userId
    ensures r.Some? ==> exists i, j :: 0 <= i < |sessions| && 0 <= j < |users|
                                      && sessions[i].id == id && users[j].id == sessions[i].userId
                                      && r.value == users[j].(hashedPassword := "")
  {
    if sessions == [] then None
    else
      var k := FirstIndex(users, UserId, sessions[0].userId);
      if sessions[0].id == id && k < |users| then
        Some(users[k].(hashedPassword := ""))
      else
        var r := SelectUserBySession(sessions[1..], users, id);
        assert r.Some? ==> exists i, j :: 0 <= i < |sessions[1..]| && 0 <= j < |users|
                              && sessions[1..][i].id == id && users[j].id == sessions[1..][i].userId
                              && r.value == users[j].(hashedPassword := "");
        r
  }

  /** The sessions of one user, in table order (`WHERE user_id = ?`). */
  function SessionsOf(rows: seq<Session>, userId: nat): (r: seq<Session>)
    ensures forall s :: s in r <==> s in rows && s.userId == userId
  {
    if rows == [] then []
    else (if rows[0].userId == userId then [rows[0]] else []) + SessionsOf(rows[1..], userId)
  }

  /** The rows left by `DELETE FROM sessions WHERE user_id = ?`. */
  function DeleteSessionsOf(rows: seq<Session>, userId: nat): (r: seq<Session>)
    ensures forall s :: s in r <==> s in rows && s.userId != userId
  {
    if rows == [] then []
    else (if rows[0].userId != userId then [rows[0]] else []) + DeleteSessionsOf(rows[1..], userId)
  }

  /** The rows after `DELETE FROM sessions WHERE user_id = ?; INSERT INTO sessions ...` (refresh_user_session). */
  function ReplaceSessionsOf(rows: seq<Session>, row: Session): (r: seq<Session>)
    ensures r != [] && r[|r| - 1] == row
    ensures forall s :: s in r <==> s == row || (s in rows && s.userId != row.userId)
  {
    DeleteSessionsOf(rows, row.userId) + [row]
  }

  /** The invariant the server relies on: no user has more than one session row. */
  ghost predicate OneSessionPerUser(rows: seq<Session>)
  {
    forall userId: nat :: |SessionsOf(rows, userId)| <= 1
  }

  lemma {:induction false} SessionsOfAppend(a: seq<Session>, b: seq<Session>, userId: nat)
    ensures SessionsOf(a + b, userId) == SessionsOf(a, userId) + SessionsOf(b, userId)
  {
    if a == [] {
      assert a + b == b;
    } else {
      assert (a + b)[0] == a[0];
      assert (a + b)[1..] == a[1..] + b;
      SessionsOfAppend(a[1..], b, userId);
    }
  }

  /** After the DELETE the user has no session and every other user keeps exactly theirs. */
  lemma {:induction false} DeleteSessionsOfSessions(rows: seq<Session>, userId: nat, other: nat)
    ensures SessionsOf(DeleteSessionsOf(rows, userId), userId) == []
    ensures other != userId ==> SessionsOf(DeleteSessionsOf(rows, userId), other) == SessionsOf(rows, other)
  {
    if rows != [] {
      var head := if rows[0].userId != userId then [rows[0]] else [];
      DeleteSessionsOfSessions(rows[1..], userId, other);
      SessionsOfAppend(head, DeleteSessionsOf(rows[1..], userId), userId);
      SessionsOfAppend(head, DeleteSessionsOf(rows[1..], userId), other);
    }
  }

  /**
   * refresh_user_session leaves the user exactly the one new session and
   * every other user's sessions as they were.
   */
  lemma ReplaceLeavesExactlyOne(rows: seq<Session>, row: Session, other: nat)
    ensures SessionsOf(ReplaceSessionsOf(rows, row), row.userId) == [row]
    ensures other != row.userId ==> SessionsOf(ReplaceSessionsOf(rows, row), other) == SessionsOf(rows, other)
  {
    DeleteSessionsOfSessions(rows, row.userId, other);
    SessionsOfAppend(DeleteSessionsOf(rows, row.userId), [row], row.userId);
    SessionsOfAppend(DeleteSessionsOf(rows, row.userId), [row], other);
  }

  /** refresh_user_session keeps the one-session-per-user invariant. */
  lemma ReplaceKeepsOneSessionPerUser(rows: seq<Session>, row: Session)
    requires OneSessionPerUser(rows)
    ensures OneSessionPerUser(ReplaceSessionsOf(rows, row))
  {
    forall userId: nat ensures |SessionsOf(ReplaceSessionsOf(rows, row), userId)| <= 1 {
      ReplaceLeavesExactlyOne(rows, row, userId);
    }
  }

  /** A user id no row refers to has no sessions. */
  lemma {:induction false} NoSessionsOfUnusedId(rows: seq<Session>, userId: nat)
    requires forall i :: 0 <= i < |rows| ==> rows[i].userId != userId
    ensures SessionsOf(rows, userId) == []
  {
    if rows != [] {
      NoSessionsOfUnusedId(rows[1..], userId);
    }
  }

  /**
   * create_new_user's session insert keeps the invariant when the new user's
   * id is not yet referred to by any session.
   */
  lemma AppendFreshUserSessionKeepsOneSessionPerUser(rows: seq<Session>, row: Session)
    requires OneSessionPerUser(rows)
    requires forall i :: 0 <= i < |rows| ==> rows[i].userId != row.userId
    ensures SessionsOf(rows + [row], row.userId) == [row]
    ensures OneSessionPerUser(rows + [row])
  {
    NoSessionsOfUnusedId(rows, row.userId);
    forall userId: nat ensures |SessionsOf(rows + [row], userId)| <= 1 {
      SessionsOfAppend(rows, [row], userId);
      assert [row][1..] == [];
    }
    SessionsOfAppend(rows, [row], row.userId);
    assert [row][1..] == [];
  }

  /**
   * After refresh_user_session(u, (c, k)) get_session(k) finds the new row,
   * provided no other user's session already has the id k.
   */
  lemma SelectAfterReplace(rows: seq<Session>, row: Session)
    requires forall i :: 0 <= i < |rows| && rows[i].id == row.id ==> rows[i].userId == row.userId
    ensures SelectSession(ReplaceSessionsOf(rows, row), row.id) == Some(row)
  {
    var kept := DeleteSessionsOf(rows, row.userId);
    forall j | 0 <= j < |kept| ensures kept[j].id != row.id {
      assert kept[j] in kept;
    }
    var all := kept + [row];
    assert all[|kept|] == row;
    var r := SelectSession(all, row.id);
    assert r.Some?;
  }

  /**
   * After refresh_user_session(u, ...) a previous session id of u that no
   * other user holds and that differs from the new id finds nothing.
   */
  lemma SelectStaleAfterReplace(rows: seq<Session>, row: Session, stale: string)
    requires stale != row.id
    requires forall i :: 0 <= i < |rows| && rows[i].id == stale ==> rows[i].userId == row.userId
    ensures SelectSession(ReplaceSessionsOf(rows, row), stale) == None
  {
    var all := ReplaceSessionsOf(rows, row);
    forall i | 0 <= i < |all| ensures all[i].id != stale {
      assert all[i] in all;
    }
  }
}
