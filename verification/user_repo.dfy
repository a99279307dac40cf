/** The users repository (internal/repository/postgres/user.go). Every statement
    goes through the pool, never through a transaction. */
module UserRepo {
  import opened Entities
  import opened Store

  /** `GetUser`: the stored row, None when no row has that id. */
  function GetUser(t: Tables, userId: int, faults: Faults): (r: Result<Option<User>>)
    requires Keyed(t)
    ensures r.Err? <==> SelectUser in faults
    ensures r.Ok? ==> (r.value.Some? <==> userId in t.users)
    ensures r.Ok? && r.value.Some? ==> r.value.value.id == userId && r.value.value == t.users[userId]
  {
    if SelectUser in faults then Err(Wrapped("get user", Driver(faults[SelectUser])))
    else if userId in t.users then Ok(Some(t.users[userId]))
    else Ok(None)
  }

  /** `CreateUser`: inserts id, display name and balance; `created_at` takes the
      database's time `now`, which is not copied back into the caller's value.
      `user_id` is the table's primary key, so an existing id is refused. */
  method CreateUser(db: Database, user: User, now: int, faults: Faults) returns (err: Option<Error>)
    requires db.Valid()
    modifies db`committed, db`live, db`locks
    ensures db.Valid()
    ensures err.None? <==>
              UserInsert !in faults && user.id !in old(db.committed.users) &&
              !old(db.Blocks(Direct, InsertUser(user.(createdAt := now))))
    ensures user.id in old(db.committed.users) && UserInsert !in faults ==>
              err == Some(Wrapped("create user", DuplicateKey))
    ensures err.None? ==>
              db.committed == old(db.committed).(users := old(db.committed.users)[user.id := user.(createdAt := now)],
                                                 userOrder := old(db.committed.userOrder) + [user.id])
    ensures err.Some? ==> db.committed == old(db.committed) && db.live == old(db.live)
  {
    if UserInsert in faults {
      return Some(Wrapped("create user", Driver(faults[UserInsert])));
    }
    if user.id in db.committed.users {
      return Some(Wrapped("create user", DuplicateKey));
    }
    err := db.Exec(Direct, InsertUser(user.(createdAt := now)), UserInsert, faults);
  }

  /** `UpdatePointBalance`: sets the balance of an existing user; a missing user
      is reported as "user not found: <id>". */
  method UpdatePointBalance(db: Database, userId: int, newBalance: int, faults: Faults) returns (err: Option<Error>)
    requires db.Valid()
    modifies db`committed, db`live, db`locks
    ensures db.Valid()
    ensures err == if UpdateBalance in faults then Some(Wrapped("update point balance", Driver(faults[UpdateBalance])))
                   else if old(db.Blocks(Direct, SetBalance(userId, newBalance))) then Some(Stalled)
                   else if userId !in old(db.committed.users) then Some(RowNotFound("user", userId))
                   else None
    ensures err.None? ==>
              db.committed == old(db.committed).(users := old(db.committed.users)[userId := old(db.committed.users)[userId].(balance := newBalance)])
    ensures err.Some? ==> db.committed == old(db.committed)
  {
    if UpdateBalance in faults {
      return Some(Wrapped("update point balance", Driver(faults[UpdateBalance])));
    }
    var missing := userId !in db.committed.users;
    err := db.Exec(Direct, SetBalance(userId, newBalance), UpdateBalance, faults);
    if err.None? && missing {
      err := Some(RowNotFound("user", userId));
    }
  }

  /** `ListUsers`: newest first (`ORDER BY created_at DESC`), skipping `offset`
      users and returning at most `limit`. PostgreSQL refuses a negative LIMIT or
      OFFSET. The loop walks the insertion order backwards. */
  method ListUsers(t: Tables, limit: int, offset: int, faults: Faults) returns (r: Result<seq<User>>)
    requires Keyed(t)
    ensures r.Err? <==> ListUsersQuery in faults || limit < 0 || offset < 0
    ensures r.Ok? ==> |r.value| == if offset >= |t.userOrder| then 0
                                   else if limit < |t.userOrder| - offset then limit
                                   else |t.userOrder| - offset
    ensures r.Ok? ==> forall i :: 0 <= i < |r.value| ==>
              0 <= |t.userOrder| - 1 - offset - i &&
              r.value[i] == t.users[t.userOrder[|t.userOrder| - 1 - offset - i]]
  {
    if ListUsersQuery in faults {
      return Err(Wrapped("list users query", Driver(faults[ListUsersQuery])));
    }
    if limit < 0 {
      return Err(Wrapped("list users query", Driver("LIMIT must not be negative")));
    }
    if offset < 0 {
      return Err(Wrapped("list users query", Driver("OFFSET must not be negative")));
    }
    var n := |t.userOrder|;
    var rows: seq<User> := [];
    var i := offset;
    while i < n && |rows| < limit
      invariant offset <= i && (rows == [] || i <= n)
      invariant |rows| == i - offset <= limit
      invariant forall k :: 0 <= k < |rows| ==>
                  0 <= n - 1 - offset - k && rows[k] == t.users[t.userOrder[n - 1 - offset - k]]
    {
      assert t.userOrder[n - 1 - i] in t.users;
      rows := rows + [t.users[t.userOrder[n - 1 - i]]];
      i := i + 1;
    }
    return Ok(rows);
  }

  /** The users a page lists are distinct stored users. */
  lemma ListedUsersDistinct(t: Tables, page: seq<User>, offset: nat)
    requires Keyed(t)
    requires forall i :: 0 <= i < |page| ==>
               0 <= |t.userOrder| - 1 - offset - i && page[i] == t.users[t.userOrder[|t.userOrder| - 1 - offset - i]]
    ensures forall i :: 0 <= i < |page| ==> page[i].id in t.users && t.users[page[i].id] == page[i]
    ensures forall i, j :: 0 <= i < j < |page| ==> page[i].id != page[j].id
  {
    var n := |t.userOrder|;
    forall i | 0 <= i < |page|
      ensures page[i].id == t.userOrder[n - 1 - offset - i]
    {
      assert t.userOrder[n - 1 - offset - i] in t.users;
    }
    forall i, j | 0 <= i < j < |page|
      ensures page[i].id != page[j].id
    {
      var a, b := n - 1 - offset - j, n - 1 - offset - i;
      assert page[j].id == t.userOrder[a] && page[i].id == t.userOrder[b];
      assert 0 <= a < b < n;
      assert t.userOrder[a] != t.userOrder[b];
    }
  }
}
