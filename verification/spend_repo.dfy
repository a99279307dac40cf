/** The point-spend repository (internal/repository/postgres/point_spend.go): the
    conditional debit of a user's balance and the append-only `point_spend` log.
    Each statement goes through the repository's handle: the transaction inside
    `InTransaction`, the pool otherwise. The database clock is the parameter `now`. */
module SpendRepo {
  import opened Entities
  import opened Seqs
  import opened Store

  /** Sum of `points_spent` over the user's records. */
  function TotalSpent(log: seq<PointSpend>, userId: int): int
  {
    if log == [] then 0
    else
      var last := log[|log| - 1];
      TotalSpent(log[..|log| - 1], userId) + (if last.userId == userId then last.points else 0)
  }

  lemma TotalSpentAppend(log: seq<PointSpend>, s: PointSpend, userId: int)
    ensures TotalSpent(log + [s], userId) == TotalSpent(log, userId) + (if s.userId == userId then s.points else 0)
  {
    assert (log + [s])[..|log|] == log;
  }

  /** `GetTotalSpentByUser`: the user's lifetime spend, 0 without records
      (`COALESCE(SUM(points_spent), 0)`). */
  function GetTotalSpentByUser(t: Tables, userId: int, faults: Faults): (r: Result<int>)
    ensures r.Err? <==> TotalSpentSum in faults
    ensures r.Ok? ==> r.value == TotalSpent(t.spends, userId)
  {
    if TotalSpentSum in faults then Err(Wrapped("get total spent", Driver(faults[TotalSpentSum])))
    else Ok(TotalSpent(t.spends, userId))
  }

  /** `Create`: appends one record stamped with a fresh id and `now`. */
  method Create(db: Database, h: Handle, userId: int, itemId: int, points: int, now: int, faults: Faults)
    returns (r: Result<PointSpend>)
    requires db.Valid() && (h == InTx ==> db.txOpen)
    modifies db`committed, db`live, db`locks, db`nextSpendId
    ensures db.Valid()
    ensures r.Err? <==> InsertSpend in faults
    ensures r.Err? ==> r.error == Wrapped("create spend record", Driver(faults[InsertSpend]))
    ensures r.Err? ==> db.committed == old(db.committed) && db.live == old(db.live)
    ensures r.Ok? ==> r.value == PointSpend(old(db.nextSpendId), userId, itemId, points, now)
    ensures r.Ok? ==> db.View(h) == old(db.View(h)).(spends := old(db.View(h).spends) + [r.value])
    ensures h == InTx ==> db.committed == old(db.committed)
    ensures db.locks == old(db.locks)
  {
    if InsertSpend in faults {
      return Err(Wrapped("create spend record", Driver(faults[InsertSpend])));
    }
    var id := db.DrawSpendId();
    var spend := PointSpend(id, userId, itemId, points, now);
    var err := db.Exec(h, AppendSpend(spend), InsertSpend, faults);
    assert err.None?;
    return Ok(spend);
  }

  /** The guarded debit of `SpendPoints`: no matched row means too small a
      balance or no such user. */
  method Withdraw(db: Database, h: Handle, userId: int, points: int, faults: Faults) returns (err: Option<Error>)
    requires db.Valid() && (h == InTx ==> db.txOpen)
    modifies db`committed, db`live, db`locks
    ensures db.Valid()
    ensures err == if DebitBalance in faults then Some(Wrapped("update balance", Driver(faults[DebitBalance])))
                   else if old(db.Blocks(h, Debit(userId, points))) then Some(Stalled)
                   else if !(userId in old(db.View(h).users) && old(db.View(h).users[userId].balance) >= points)
                   then Some(InsufficientBalance)
                   else None
    ensures err.Some? && err != Some(Stalled) ==> db.committed == old(db.committed) && db.View(h) == old(db.View(h))
    ensures err.None? ==> db.View(h) == old(db.View(h)).(
              users := old(db.View(h).users)[userId := old(db.View(h).users[userId]).(balance := old(db.View(h).users[userId].balance) - points)])
    ensures h == InTx ==> db.committed == old(db.committed)
    ensures db.locks <= old(db.locks) + {UserRow(userId)}
  {
    if DebitBalance in faults {
      return Some(Wrapped("update balance", Driver(faults[DebitBalance])));
    }
    var matched := userId in db.View(h).users && db.View(h).users[userId].balance >= points;
    err := db.Exec(h, Debit(userId, points), DebitBalance, faults);
    if err.None? && !matched {
      err := Some(InsufficientBalance);
    }
  }

  /** `SpendPoints`: the guarded debit `point_balance - points ... WHERE
      point_balance >= points`; when it matches no row (too small a balance, or
      no such user) the result is `ErrInsufficientBalance` and nothing changes.
      Otherwise the balance drops by exactly `points`, staying non-negative, and
      one record (user, item, points) is appended; a failed append is wrapped
      twice in "create spend record" and leaves the debit to the caller's
      rollback. */
  method SpendPoints(db: Database, h: Handle, userId: int, itemId: int, points: int, now: int, faults: Faults)
    returns (err: Option<Error>)
    requires db.Valid() && (h == InTx ==> db.txOpen)
    modifies db`committed, db`live, db`locks, db`nextSpendId
    ensures db.Valid()
    ensures DebitBalance in faults ==>
              err == Some(Wrapped("update balance", Driver(faults[DebitBalance])))
    ensures err == Some(InsufficientBalance) <==>
              DebitBalance !in faults && !old(db.Blocks(h, Debit(userId, points))) &&
              !(userId in old(db.View(h).users) && old(db.View(h).users[userId].balance) >= points)
    ensures err == Some(InsufficientBalance) || DebitBalance in faults ==>
              db.committed == old(db.committed) && db.View(h) == old(db.View(h))
    ensures err.None? <==>
              DebitBalance !in faults && InsertSpend !in faults && !old(db.Blocks(h, Debit(userId, points))) &&
              userId in old(db.View(h).users) && old(db.View(h).users[userId].balance) >= points
    ensures err.None? ==> db.View(h) == old(db.View(h)).(
              users := old(db.View(h).users)[userId := old(db.View(h).users[userId]).(balance := old(db.View(h).users[userId].balance) - points)],
              spends := old(db.View(h).spends) + [PointSpend(old(db.nextSpendId), userId, itemId, points, now)])
    ensures err.None? ==> db.View(h).users[userId].balance >= 0
    ensures h == InTx ==> db.committed == old(db.committed)
    ensures db.locks <= old(db.locks) + {UserRow(userId)}
    ensures err == Some(Stalled) <==> DebitBalance !in faults && old(db.Blocks(h, Debit(userId, points)))
    ensures err.Some? ==> err == Some(InsufficientBalance) || err == Some(Stalled) || err.value.Wrapped?
  {
    err := Withdraw(db, h, userId, points, faults);
    if err.Some? {
      return;
    }
    var created := Create(db, h, userId, itemId, points, now, faults);
    if created.Err? {
      return Some(Wrapped("create spend record", created.error));
    }
  }

  /** A row of `GetByUser`: the record joined with its catalog item. */
  datatype SpendRow = SpendRow(spend: PointSpend, item: Item)

  /** The user's records that have a catalog item (the inner join), newest
      first (the log is in `spend_ts` order). */
  function SpendRowsNewestFirst(log: seq<PointSpend>, items: map<int, Item>, userId: int): seq<SpendRow>
  {
    if log == [] then []
    else
      var last := log[|log| - 1];
      (if last.userId == userId && last.itemId in items then [SpendRow(last, items[last.itemId])] else [])
      + SpendRowsNewestFirst(log[..|log| - 1], items, userId)
  }

  /** Every row is one of the user's records, joined with that record's item. */
  lemma {:induction false} SpendRowsBelong(log: seq<PointSpend>, items: map<int, Item>, userId: int)
    ensures forall row :: row in SpendRowsNewestFirst(log, items, userId) ==>
              row.spend in log && row.spend.userId == userId &&
              row.spend.itemId in items && row.item == items[row.spend.itemId]
  {
    if log != [] {
      SpendRowsBelong(log[..|log| - 1], items, userId);
    }
  }

  lemma SpendRowsStep(log: seq<PointSpend>, items: map<int, Item>, userId: int, i: int)
    requires 0 < i <= |log|
    ensures SpendRowsNewestFirst(log[..i], items, userId) ==
            (if log[i - 1].userId == userId && log[i - 1].itemId in items then [SpendRow(log[i - 1], items[log[i - 1].itemId])] else [])
            + SpendRowsNewestFirst(log[..i - 1], items, userId)
  {
    assert log[..i][..i - 1] == log[..i - 1];
  }

  /** `GetByUser`: the user's records with their items, newest first, after
      skipping `offset` rows and keeping at most `limit`. The loop walks the log
      backwards; the database's LIMIT/OFFSET window is `Page`. PostgreSQL
      refuses a negative LIMIT or OFFSET. */
  method GetByUser(t: Tables, userId: int, limit: int, offset: int, faults: Faults) returns (r: Result<seq<SpendRow>>)
    ensures r.Err? <==> SpendsQuery in faults || limit < 0 || offset < 0
    ensures r.Ok? ==> r.value == Page(SpendRowsNewestFirst(t.spends, t.items, userId), limit, offset)
  {
    if SpendsQuery in faults {
      return Err(Wrapped("get user spends query", Driver(faults[SpendsQuery])));
    }
    if limit < 0 {
      return Err(Wrapped("get user spends query", Driver("LIMIT must not be negative")));
    }
    if offset < 0 {
      return Err(Wrapped("get user spends query", Driver("OFFSET must not be negative")));
    }
    var log := t.spends;
    var rows: seq<SpendRow> := [];
    var i := |log|;
    assert log[..i] == log;
    while i > 0
      invariant 0 <= i <= |log|
      invariant SpendRowsNewestFirst(log, t.items, userId) == rows + SpendRowsNewestFirst(log[..i], t.items, userId)
    {
      var s := log[i - 1];
      var row := if s.userId == userId && s.itemId in t.items then [SpendRow(s, t.items[s.itemId])] else [];
      SpendRowsStep(log, t.items, userId, i);
      assert rows + SpendRowsNewestFirst(log[..i], t.items, userId) ==
             (rows + row) + SpendRowsNewestFirst(log[..i - 1], t.items, userId);
      rows := rows + row;
      i := i - 1;
    }
    assert log[..0] == [];
    assert rows == SpendRowsNewestFirst(log, t.items, userId);
    return Ok(Page(rows, limit, offset));
  }
}
