/** The user endpoints (internal/handlers/users.go). Each request runs alone
    against a database with no transaction open. */
module UserHandler {
  import opened Entities
  import opened Store
  import opened Http
  import UserRepo

  /** `createUser`: a user needs a non-zero id and a display name, and starts
      with no points. The answer echoes the request's user, whose creation time
      stays Go's zero time; the stored row carries the database's `now`. */
  method CreateUser(db: Database, userId: int, displayName: string, now: int, faults: Faults) returns (reply: Reply<User>)
    requires db.Valid() && !db.txOpen
    modifies db`committed, db`live, db`locks
    ensures db.Valid() && !db.txOpen && !reply.NoAnswer?
    ensures userId == 0 || displayName == "" <==>
              reply == Refusal(StatusBadRequest, "user_id and display_name are required")
    ensures reply.Answer? <==>
              userId != 0 && displayName != "" && UserInsert !in faults && userId !in old(db.committed.users)
    ensures reply.Answer? ==>
              reply == Answer(StatusCreated, User(userId, displayName, 0, 0)) &&
              db.committed == old(db.committed).(users := old(db.committed.users)[userId := User(userId, displayName, 0, now)],
                                                 userOrder := old(db.committed.userOrder) + [userId])
    ensures userId != 0 && displayName != "" && !reply.Answer? ==>
              reply == Refusal(StatusInternalServerError, "Failed to create user")
    ensures !reply.Answer? ==> db.committed == old(db.committed)
  {
    if userId == 0 || displayName == "" {
      return Refusal(StatusBadRequest, "user_id and display_name are required");
    }
    var user := User(userId, displayName, 0, 0);
    var err := UserRepo.CreateUser(db, user, now, faults);
    if err.Some? {
      return Refusal(StatusInternalServerError, "Failed to create user");
    }
    return Answer(StatusCreated, user);
  }

  /** `getUser`: the stored user, 404 when there is none. */
  method GetUser(db: Database, userId: int, faults: Faults) returns (reply: Reply<User>)
    requires db.Valid()
    ensures !reply.NoAnswer?
    ensures reply == Refusal(StatusInternalServerError, "Failed to get user") <==> SelectUser in faults
    ensures reply == Refusal(StatusNotFound, "User not found") <==> SelectUser !in faults && userId !in db.committed.users
    ensures reply.Answer? ==>
              userId in db.committed.users && reply == Answer(StatusOK, db.committed.users[userId]) && reply.body.id == userId
  {
    var found := UserRepo.GetUser(db.committed, userId, faults);
    if found.Err? {
      return Refusal(StatusInternalServerError, "Failed to get user");
    }
    if found.value.None? {
      return Refusal(StatusNotFound, "User not found");
    }
    return Answer(StatusOK, found.value.value);
  }

  /** `updatePoints` as written: it looks for a missing user by comparing the
      repository's error with `sql.ErrNoRows`, but the repository reports a
      missing user with its own "user not found" error, so that comparison
      never holds and a missing user is answered 500. */
  method UpdatePoints(db: Database, userId: int, newBalance: int, faults: Faults) returns (reply: Reply<()>)
    requires db.Valid() && !db.txOpen
    modifies db`committed, db`live, db`locks
    ensures db.Valid() && !db.txOpen && !reply.NoAnswer?
    ensures newBalance < 0 <==> reply == Refusal(StatusBadRequest, "Point balance cannot be negative")
    ensures reply.Answer? <==> newBalance >= 0 && UpdateBalance !in faults && userId in old(db.committed.users)
    ensures reply.Refusal? ==> reply.status != StatusNotFound
    ensures newBalance >= 0 && userId !in old(db.committed.users) ==>
              reply == Refusal(StatusInternalServerError, "Failed to update points")
    ensures reply.Answer? ==>
              reply.status == StatusNoContent &&
              db.committed == old(db.committed).(users := old(db.committed.users)[userId := old(db.committed.users)[userId].(balance := newBalance)])
    ensures !reply.Answer? ==> db.committed == old(db.committed)
    ensures NonNegativeBalances(old(db.committed)) ==> NonNegativeBalances(db.committed)
  {
    if newBalance < 0 {
      return Refusal(StatusBadRequest, "Point balance cannot be negative");
    }
    var err := UserRepo.UpdatePointBalance(db, userId, newBalance, faults);
    if err.Some? {
      if err.value == NoRows {
        return Refusal(StatusNotFound, "User not found");
      }
      return Refusal(StatusInternalServerError, "Failed to update points");
    }
    return NoContent();
  }

  /** `updatePoints` as its authors meant it: a missing user is answered 404. */
  method UpdatePointsCorrected(db: Database, userId: int, newBalance: int, faults: Faults) returns (reply: Reply<()>)
    requires db.Valid() && !db.txOpen
    modifies db`committed, db`live, db`locks
    ensures db.Valid() && !db.txOpen && !reply.NoAnswer?
    ensures newBalance < 0 <==> reply == Refusal(StatusBadRequest, "Point balance cannot be negative")
    ensures reply == Refusal(StatusNotFound, "User not found") <==>
              newBalance >= 0 && UpdateBalance !in faults && userId !in old(db.committed.users)
    ensures reply.Answer? <==> newBalance >= 0 && UpdateBalance !in faults && userId in old(db.committed.users)
    ensures reply.Answer? ==>
              reply.status == StatusNoContent &&
              db.committed == old(db.committed).(users := old(db.committed.users)[userId := old(db.committed.users)[userId].(balance := newBalance)])
    ensures !reply.Answer? ==> db.committed == old(db.committed)
    ensures NonNegativeBalances(old(db.committed)) ==> NonNegativeBalances(db.committed)
  {
    if newBalance < 0 {
      return Refusal(StatusBadRequest, "Point balance cannot be negative");
    }
    var err := UserRepo.UpdatePointBalance(db, userId, newBalance, faults);
    if err.Some? {
      if err.value.RowNotFound? {
        return Refusal(StatusNotFound, "User not found");
      }
      return Refusal(StatusInternalServerError, "Failed to update points");
    }
    return NoContent();
  }

  /** The empty 204 answer. */
  function NoContent(): (reply: Reply<()>)
    ensures reply.Answer? && reply.status == StatusNoContent
  {
    Answer(StatusNoContent, ())
  }

  /** `listUsers`: a page of users, newest first, with the shared `limit` and
      `offset` rules. */
  method ListUsers(db: Database, limitParam: Option<int>, offsetParam: Option<int>, faults: Faults)
    returns (reply: Reply<seq<User>>)
    requires db.Valid()
    ensures !reply.NoAnswer?
    ensures reply.Refusal? <==> ListUsersQuery in faults
    ensures reply.Refusal? ==> reply == Refusal(StatusInternalServerError, "Failed to list users")
    ensures reply.Answer? ==> reply.status == StatusOK && 0 <= |reply.body| <= PageLimit(limitParam)
    ensures reply.Answer? ==>
              |reply.body| == if PageOffset(offsetParam) >= |db.committed.userOrder| then 0
                              else if PageLimit(limitParam) < |db.committed.userOrder| - PageOffset(offsetParam) then PageLimit(limitParam)
                              else |db.committed.userOrder| - PageOffset(offsetParam)
    ensures reply.Answer? ==> forall i :: 0 <= i < |reply.body| ==>
              var n := |db.committed.userOrder| - 1 - PageOffset(offsetParam) - i;
              0 <= n && reply.body[i] == db.committed.users[db.committed.userOrder[n]]
    ensures reply.Answer? ==> forall i, j :: 0 <= i < j < |reply.body| ==> reply.body[i].id != reply.body[j].id
  {
    var limit := PageLimit(limitParam);
    var offset := PageOffset(offsetParam);
    var users := UserRepo.ListUsers(db.committed, limit, offset, faults);
    if users.Err? {
      return Refusal(StatusInternalServerError, "Failed to list users");
    }
    UserRepo.ListedUsersDistinct(db.committed, users.value, offset);
    return Answer(StatusOK, users.value);
  }
}
