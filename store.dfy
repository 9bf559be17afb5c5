/**
 * The database behind src/routes/handlers/db.rs and src/handlers/db.rs: the
 * two tables as fields, and the two operations that change them, each run as
 * one transaction whose writes become visible only at `commit`.
 */
module Store {
  import opened Wrappers
  import opened Tables

  class Database {
    var users: seq<User>
    var sessions: seq<Session>
    /** The id the next inserted user row receives (`INSERT ... RETURNING id`). */
    var nextUserId: nat

    /** User ids are assigned in increasing order and all lie below `nextUserId`. */
    ghost predicate Valid()
      reads this
    {
      && (forall i :: 0 <= i < |users| ==> users[i].id < nextUserId)
      && (forall i, j :: 0 <= i < j < |users| ==> users[i].id < users[j].id)
    }

    /** Every session row belongs to a user row. */
    ghost predicate SessionsOwned()
      reads this
    {
      forall i :: 0 <= i < |sessions| ==> exists j :: 0 <= j < |users| && users[j].id == sessions[i].userId
    }

    constructor ()
      ensures Valid() && SessionsOwned()
      ensures users == [] && sessions == [] && OneSessionPerUser(sessions)
    {
      users, sessions, nextUserId := [], [], 1;
    }

    /**
     * create_new_user: insert one user row and one session row for it with
     * id `tokenPair.1` and csrf token `tokenPair.0`, and return the session id.
     * `fault` is the statement at which the database reports an error, if any;
     * on an error nothing is committed and both tables stay as they were.
     */
    method CreateNewUser(email: string, handle: string, hashedPw: string, tokenPair: (string, string),
                         now: int, fault: Option<DbStep>)
      returns (r: Result<string, DbError>)
      requires Valid()
      modifies this
      ensures Valid()
      ensures r.Err? <==> fault in {Some(Begin), Some(InsertUser), Some(InsertSession), Some(Commit)}
      ensures r.Err? ==> r.error == Failed(fault.value)
      ensures r.Err? ==> users == old(users) && sessions == old(sessions) && nextUserId == old(nextUserId)
      ensures r.Ok? ==> r.value == tokenPair.1
      ensures r.Ok? ==> users == old(users) + [User(old(nextUserId), email, handle, hashedPw)]
      ensures r.Ok? ==> sessions == old(sessions) + [Session(tokenPair.1, tokenPair.0, old(nextUserId), now)]
      ensures r.Ok? && old(SessionsOwned()) ==> SessionsOwned()
      ensures r.Ok? && old(SessionsOwned()) && old(OneSessionPerUser(sessions)) ==> OneSessionPerUser(sessions)
    {
      if fault == Some(Begin) {
        return Err(Failed(Begin));
      }
      // The transaction's own view of the tables.
      var txUsers, txSessions, txNextUserId := users, sessions, nextUserId;

      if fault == Some(InsertUser) {
        return Err(Failed(InsertUser));
      }
      var createdUserId := txNextUserId;
      txUsers := txUsers + [User(createdUserId, email, handle, hashedPw)];
      txNextUserId := txNextUserId + 1;

      if fault == Some(InsertSession) {
        return Err(Failed(InsertSession));
      }
      var row := Session(tokenPair.1, tokenPair.0, createdUserId, now);
      txSessions := txSessions + [row];
      var createdSessionId := row.id;

      if fault == Some(Commit) {
        return Err(Failed(Commit));
      }
      ghost var oldSessions, oldUsers := sessions, users;
      ghost var oldOwned := SessionsOwned();
      assert oldOwned ==> forall i :: 0 <= i < |oldSessions| ==>
                            exists j :: 0 <= j < |oldUsers| && oldUsers[j].id == oldSessions[i].userId;
      users, sessions, nextUserId := txUsers, txSessions, txNextUserId;

      assert users[|users| - 1].id == createdUserId;
      if oldOwned {
        forall i | 0 <= i < |sessions| ensures exists j :: 0 <= j < |users| && users[j].id == sessions[i].userId {
          if i < |oldSessions| {
            var j :| 0 <= j < |oldUsers| && oldUsers[j].id == oldSessions[i].userId;
            assert users[j] == oldUsers[j];
          } else {
            assert users[|users| - 1].id == sessions[i].userId;
          }
        }
      }
      if oldOwned && OneSessionPerUser(oldSessions) {
        forall i | 0 <= i < |oldSessions| ensures oldSessions[i].userId != createdUserId {
          var j :| 0 <= j < |oldUsers| && oldUsers[j].id == oldSessions[i].userId;
        }
        AppendFreshUserSessionKeepsOneSessionPerUser(oldSessions, row);
      }
      return Ok(createdSessionId);
    }

    /**
     * refresh_user_session: delete every session of the user and insert the
     * one new session (id `tokenPair.1`, csrf token `tokenPair.0`), returning
     * its id. On an error nothing is committed.
     */
    method RefreshUserSession(userId: nat, tokenPair: (string, string), now: int, fault: Option<DbStep>)
      returns (r: Result<string, DbError>)
      requires Valid()
      modifies this
      ensures Valid()
      ensures users == old(users) && nextUserId == old(nextUserId)
      ensures r.Err? <==> fault in {Some(Begin), Some(ReplaceSessions), Some(Commit)}
      ensures r.Err? ==> r.error == Failed(fault.value) && sessions == old(sessions)
      ensures r.Ok? ==> r.value == tokenPair.1
      ensures r.Ok? ==> sessions == ReplaceSessionsOf(old(sessions), Session(tokenPair.1, tokenPair.0, userId, now))
      ensures r.Ok? && old(OneSessionPerUser(sessions)) ==> OneSessionPerUser(sessions)
      ensures r.Ok? && old(SessionsOwned()) && (exists j :: 0 <= j < |users| && users[j].id == userId) ==> SessionsOwned()
    {
      if fault == Some(Begin) {
        return Err(Failed(Begin));
      }
      var txSessions := sessions;

      if fault == Some(ReplaceSessions) {
        return Err(Failed(ReplaceSessions));
      }
      var row := Session(tokenPair.1, tokenPair.0, userId, now);
      txSessions := DeleteSessionsOf(txSessions, userId);
      txSessions := txSessions + [row];
      var createdSessionId := row.id;

      if fault == Some(Commit) {
        return Err(Failed(Commit));
      }
      ghost var oldSessions := sessions;
      sessions := txSessions;

      if OneSessionPerUser(oldSessions) {
        ReplaceKeepsOneSessionPerUser(oldSessions, row);
      }
      forall i | 0 <= i < |sessions| - 1 ensures sessions[i] in oldSessions {
        assert sessions[i] in DeleteSessionsOf(oldSessions, userId);
      }
      return Ok(createdSessionId);
    }
  }
}
