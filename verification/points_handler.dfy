/** The points endpoints (internal/handlers/points.go): buying an item with
    points for a pointling, and the spending history. */
module PointHandler {
  import opened Entities
  import opened Store
  import opened Seqs
  import opened Http
  import ItemRepo
  import SpendRepo
  import InventoryRepo

  /** The body of a successful purchase. `PreviousSpend` is never set and is
      left out. */
  datatype TransactionSuccess = TransactionSuccess(itemId: int, pointsSpent: int, newBalance: int)

  /** The tables after a complete purchase: the buyer's balance lowered by the
      price, one spend record, and the item in the pointling's inventory. */
  function Purchased(t: Tables, userId: int, itemId: int, pointlingId: int, price: int, spendId: int, now: int): Tables
    requires userId in t.users
  {
    t.(users := t.users[userId := t.users[userId].(balance := t.users[userId].balance - price)],
       spends := t.spends + [PointSpend(spendId, userId, itemId, price, now)],
       owned := t.owned[(pointlingId, itemId) := Edge(now, false)])
  }

  /** The buyer can pay: the guarded debit matches their row. */
  predicate CanPay(t: Tables, userId: int, price: int)
  {
    userId in t.users && t.users[userId].balance >= price
  }

  /** A purchase the buyer could pay keeps every balance non-negative and
      changes no other user; the spend log grows by exactly the price for the
      buyer. */
  lemma PurchaseKeepsBalances(t: Tables, userId: int, itemId: int, pointlingId: int, price: int, spendId: int, now: int)
    requires CanPay(t, userId, price)
    ensures NonNegativeBalances(t) ==> NonNegativeBalances(Purchased(t, userId, itemId, pointlingId, price, spendId, now))
    ensures forall u :: u in t.users && u != userId ==>
              u in Purchased(t, userId, itemId, pointlingId, price, spendId, now).users &&
              Purchased(t, userId, itemId, pointlingId, price, spendId, now).users[u] == t.users[u]
    ensures SpendRepo.TotalSpent(Purchased(t, userId, itemId, pointlingId, price, spendId, now).spends, userId) ==
            SpendRepo.TotalSpent(t.spends, userId) + price
  {
    SpendRepo.TotalSpentAppend(t.spends, PointSpend(spendId, userId, itemId, price, now), userId);
  }

  /** The function `spendPoints` hands to `InTransaction`, run on a freshly
      begun transaction: the debit and the spend record go through the
      transaction, the inventory grant through `grant` (the pool in the
      source), and the reported total is read through the transaction. */
  method Purchase(db: Database, grant: Handle, userId: int, itemId: int, pointlingId: int, price: int, now: int,
                  faults: Faults) returns (fnErr: Option<Error>, total: int)
    requires db.Valid() && db.txOpen && db.live == db.committed && db.locks == {}
    modifies db`committed, db`live, db`locks, db`nextSpendId
    ensures db.Valid() && db.txOpen
    ensures fnErr != Some(Stalled)
    ensures fnErr == Some(InsufficientBalance) <==> DebitBalance !in faults && !CanPay(old(db.committed), userId, price)
    ensures fnErr == Some(AlreadyOwned) <==>
              DebitBalance !in faults && InsertSpend !in faults && CanPay(old(db.committed), userId, price) &&
              EdgeInsert !in faults && (pointlingId, itemId) in old(db.committed.owned)
    ensures fnErr.None? <==>
              DebitBalance !in faults && InsertSpend !in faults && CanPay(old(db.committed), userId, price) &&
              EdgeInsert !in faults && (pointlingId, itemId) !in old(db.committed.owned) && TotalSpentSum !in faults
    ensures fnErr.None? ==>
              db.live == Purchased(old(db.committed), userId, itemId, pointlingId, price, old(db.nextSpendId), now) &&
              total == SpendRepo.TotalSpent(db.live.spends, userId)
    ensures grant == InTx ==> db.committed == old(db.committed)
    ensures grant == Direct ==>
              db.committed ==
                if DebitBalance !in faults && InsertSpend !in faults && CanPay(old(db.committed), userId, price) &&
                   EdgeInsert !in faults && (pointlingId, itemId) !in old(db.committed.owned)
                then old(db.committed).(owned := old(db.committed.owned)[(pointlingId, itemId) := Edge(now, false)])
                else old(db.committed)
  {
    total := 0;
    fnErr := SpendRepo.SpendPoints(db, InTx, userId, itemId, price, now, faults);
    if fnErr.Some? {
      return;
    }
    assert db.committed == old(db.committed) && db.live.owned == old(db.committed.owned);
    fnErr, total := Deliver(db, grant, userId, itemId, pointlingId, now, faults);
  }

  /** The second half of the purchase body, once the debit and the spend
      record are in the transaction: the inventory grant and the total read. */
  method Deliver(db: Database, grant: Handle, userId: int, itemId: int, pointlingId: int, now: int, faults: Faults)
    returns (fnErr: Option<Error>, total: int)
    requires db.Valid() && db.txOpen && db.locks <= {UserRow(userId)} && db.live.owned == db.committed.owned
    modifies db`committed, db`live, db`locks
    ensures db.Valid() && db.txOpen
    ensures fnErr.Some? ==> fnErr == Some(AlreadyOwned) || fnErr.value.Wrapped?
    ensures fnErr == Some(AlreadyOwned) <==> EdgeInsert !in faults && (pointlingId, itemId) in old(db.live.owned)
    ensures fnErr.None? <==> EdgeInsert !in faults && (pointlingId, itemId) !in old(db.live.owned) && TotalSpentSum !in faults
    ensures fnErr.None? ==>
              db.live == old(db.live).(owned := old(db.live.owned)[(pointlingId, itemId) := Edge(now, false)]) &&
              total == SpendRepo.TotalSpent(db.live.spends, userId)
    ensures grant == InTx ==> db.committed == old(db.committed)
    ensures grant == Direct ==>
              db.committed ==
                if EdgeInsert !in faults && (pointlingId, itemId) !in old(db.committed.owned)
                then old(db.committed).(owned := old(db.committed.owned)[(pointlingId, itemId) := Edge(now, false)])
                else old(db.committed)
  {
    total := 0;
    assert EdgeRow(pointlingId, itemId) !in db.locks;
    fnErr := InventoryRepo.AddItem(db, grant, pointlingId, itemId, now, faults);
    if fnErr.Some? {
      return;
    }
    var spent := SpendRepo.GetTotalSpentByUser(db.live, userId, faults);
    if spent.Err? {
      return Some(spent.error), 0;
    }
    total := spent.value;
  }

  /** `InTransaction` around the purchase body: begin, run it, then commit or
      roll back. What the pool already wrote stays whatever the outcome. */
  method Transact(db: Database, grant: Handle, userId: int, itemId: int, pointlingId: int, price: int, now: int,
                  faults: Faults) returns (err: Option<Error>, total: int)
    requires db.Valid() && !db.txOpen
    modifies db`committed, db`live, db`locks, db`txOpen, db`nextSpendId
    ensures db.Valid() && !db.txOpen
    ensures err != Some(Stalled)
    ensures err.None? <==>
              BeginTx !in faults && DebitBalance !in faults && InsertSpend !in faults && CanPay(old(db.committed), userId, price) &&
              EdgeInsert !in faults && (pointlingId, itemId) !in old(db.committed.owned) && TotalSpentSum !in faults && CommitTx !in faults
    ensures err == Some(InsufficientBalance) <==>
              BeginTx !in faults && DebitBalance !in faults && RollbackTx !in faults && !CanPay(old(db.committed), userId, price)
    ensures err == Some(AlreadyOwned) <==>
              BeginTx !in faults && DebitBalance !in faults && InsertSpend !in faults && RollbackTx !in faults &&
              CanPay(old(db.committed), userId, price) && EdgeInsert !in faults && (pointlingId, itemId) in old(db.committed.owned)
    ensures err.None? ==>
              db.committed == Purchased(old(db.committed), userId, itemId, pointlingId, price, old(db.nextSpendId), now) &&
              total == SpendRepo.TotalSpent(db.committed.spends, userId)
    ensures err.Some? && grant == InTx ==> db.committed == old(db.committed)
    ensures err.Some? && grant == Direct ==>
              db.committed ==
                if BeginTx !in faults && DebitBalance !in faults && InsertSpend !in faults && CanPay(old(db.committed), userId, price) &&
                   EdgeInsert !in faults && (pointlingId, itemId) !in old(db.committed.owned)
                then old(db.committed).(owned := old(db.committed.owned)[(pointlingId, itemId) := Edge(now, false)])
                else old(db.committed)
  {
    total := 0;
    err := db.Begin(faults);
    if err.None? {
      var fnErr;
      fnErr, total := Purchase(db, grant, userId, itemId, pointlingId, price, now, faults);
      err := db.Finish(fnErr, faults);
    }
  }

  /** How `spendPoints` reports the outcome of the transaction. */
  function PurchaseReply(err: Option<Error>, itemId: int, price: int, total: int): (reply: Reply<TransactionSuccess>)
    ensures reply.Answer? <==> err.None?
    ensures reply == Refusal(StatusPaymentRequired, "Insufficient points") <==> err == Some(InsufficientBalance)
    ensures reply == Refusal(StatusConflict, "Item already owned") <==> err == Some(AlreadyOwned)
  {
    if err == Some(InsufficientBalance) then Refusal(StatusPaymentRequired, "Insufficient points")
    else if err == Some(AlreadyOwned) then Refusal(StatusConflict, "Item already owned")
    else if err.Some? then Refusal(StatusInternalServerError, "Failed to process purchase")
    else Answer(StatusOK, TransactionSuccess(itemId, price, total))
  }

  /** `spendPoints` as written. The item must exist and have a price; the
      purchase then debits, records and grants. The grant goes through the pool,
      so when the transaction fails after it (the total cannot be read, or the
      commit fails) the pointling keeps the item while the debit and the spend
      record are rolled back. */
  method SpendPoints(db: Database, userId: int, itemId: int, pointlingId: int, now: int, faults: Faults)
    returns (reply: Reply<TransactionSuccess>)
    requires db.Valid() && !db.txOpen
    modifies db`committed, db`live, db`locks, db`txOpen, db`nextSpendId
    ensures db.Valid() && !db.txOpen && !reply.NoAnswer?
    ensures SelectItem in faults ==> reply == Refusal(StatusInternalServerError, "Failed to get item")
    ensures SelectItem !in faults && itemId !in old(db.committed.items) ==> reply == Refusal(StatusNotFound, "Item not found")
    ensures SelectItem !in faults && itemId in old(db.committed.items) && old(db.committed.items[itemId]).price.None? ==>
              reply == Refusal(StatusBadRequest, "Item cannot be purchased with points")
    ensures reply.Answer? <==>
              SelectItem !in faults && itemId in old(db.committed.items) && old(db.committed.items[itemId]).price.Some? &&
              BeginTx !in faults && DebitBalance !in faults && InsertSpend !in faults &&
              CanPay(old(db.committed), userId, old(db.committed.items[itemId]).price.value) &&
              EdgeInsert !in faults && (pointlingId, itemId) !in old(db.committed.owned) &&
              TotalSpentSum !in faults && CommitTx !in faults
    ensures reply == Refusal(StatusPaymentRequired, "Insufficient points") <==>
              SelectItem !in faults && itemId in old(db.committed.items) && old(db.committed.items[itemId]).price.Some? &&
              BeginTx !in faults && DebitBalance !in faults && RollbackTx !in faults &&
              !CanPay(old(db.committed), userId, old(db.committed.items[itemId]).price.value)
    ensures reply == Refusal(StatusConflict, "Item already owned") <==>
              SelectItem !in faults && itemId in old(db.committed.items) && old(db.committed.items[itemId]).price.Some? &&
              BeginTx !in faults && DebitBalance !in faults && InsertSpend !in faults && RollbackTx !in faults &&
              CanPay(old(db.committed), userId, old(db.committed.items[itemId]).price.value) &&
              EdgeInsert !in faults && (pointlingId, itemId) in old(db.committed.owned)
    ensures reply.Answer? ==>
              var price := old(db.committed.items[itemId]).price.value;
              db.committed == Purchased(old(db.committed), userId, itemId, pointlingId, price, old(db.nextSpendId), now) &&
              reply == Answer(StatusOK, TransactionSuccess(itemId, price, SpendRepo.TotalSpent(old(db.committed.spends), userId) + price))
    ensures !reply.Answer? ==>
              db.committed.users == old(db.committed.users) && db.committed.spends == old(db.committed.spends)
    ensures reply == Refusal(StatusPaymentRequired, "Insufficient points") || reply == Refusal(StatusConflict, "Item already owned") ==>
              db.committed == old(db.committed)
    ensures reply == Refusal(StatusInternalServerError, "Failed to process purchase") &&
            itemId in old(db.committed.items) && old(db.committed.items[itemId]).price.Some? &&
            BeginTx !in faults && DebitBalance !in faults && InsertSpend !in faults &&
            CanPay(old(db.committed), userId, old(db.committed.items[itemId]).price.value) &&
            EdgeInsert !in faults && (pointlingId, itemId) !in old(db.committed.owned) ==>
              db.committed == old(db.committed).(owned := old(db.committed.owned)[(pointlingId, itemId) := Edge(now, false)])
  {
    var found := ItemRepo.GetByID(db.committed, itemId, faults);
    if found.Err? {
      return Refusal(StatusInternalServerError, "Failed to get item");
    }
    if found.value.None? {
      return Refusal(StatusNotFound, "Item not found");
    }
    var item := found.value.value;
    if item.price.None? {
      return Refusal(StatusBadRequest, "Item cannot be purchased with points");
    }
    var price := item.price.value;
    ghost var before := db.committed;
    ghost var spendId := db.nextSpendId;
    var err, total := Transact(db, Direct, userId, itemId, pointlingId, price, now, faults);
    reply := PurchaseReply(err, itemId, price, total);
    if reply.Answer? {
      PurchaseKeepsBalances(before, userId, itemId, pointlingId, price, spendId, now);
    }
  }

  /** `spendPoints` with the grant sent through the transaction: the purchase
      either completes, debit, record and item together, or leaves the store as
      it was. */
  method SpendPointsAtomic(db: Database, userId: int, itemId: int, pointlingId: int, now: int, faults: Faults)
    returns (reply: Reply<TransactionSuccess>)
    requires db.Valid() && !db.txOpen
    modifies db`committed, db`live, db`locks, db`txOpen, db`nextSpendId
    ensures db.Valid() && !db.txOpen && !reply.NoAnswer?
    ensures SelectItem in faults ==> reply == Refusal(StatusInternalServerError, "Failed to get item")
    ensures SelectItem !in faults && itemId !in old(db.committed.items) ==> reply == Refusal(StatusNotFound, "Item not found")
    ensures SelectItem !in faults && itemId in old(db.committed.items) && old(db.committed.items[itemId]).price.None? ==>
              reply == Refusal(StatusBadRequest, "Item cannot be purchased with points")
    ensures reply.Answer? <==>
              SelectItem !in faults && itemId in old(db.committed.items) && old(db.committed.items[itemId]).price.Some? &&
              BeginTx !in faults && DebitBalance !in faults && InsertSpend !in faults &&
              CanPay(old(db.committed), userId, old(db.committed.items[itemId]).price.value) &&
              EdgeInsert !in faults && (pointlingId, itemId) !in old(db.committed.owned) &&
              TotalSpentSum !in faults && CommitTx !in faults
    ensures reply == Refusal(StatusPaymentRequired, "Insufficient points") <==>
              SelectItem !in faults && itemId in old(db.committed.items) && old(db.committed.items[itemId]).price.Some? &&
              BeginTx !in faults && DebitBalance !in faults && RollbackTx !in faults &&
              !CanPay(old(db.committed), userId, old(db.committed.items[itemId]).price.value)
    ensures reply == Refusal(StatusConflict, "Item already owned") <==>
              SelectItem !in faults && itemId in old(db.committed.items) && old(db.committed.items[itemId]).price.Some? &&
              BeginTx !in faults && DebitBalance !in faults && InsertSpend !in faults && RollbackTx !in faults &&
              CanPay(old(db.committed), userId, old(db.committed.items[itemId]).price.value) &&
              EdgeInsert !in faults && (pointlingId, itemId) in old(db.committed.owned)
    ensures reply.Answer? ==>
              var price := old(db.committed.items[itemId]).price.value;
              db.committed == Purchased(old(db.committed), userId, itemId, pointlingId, price, old(db.nextSpendId), now) &&
              reply == Answer(StatusOK, TransactionSuccess(itemId, price, SpendRepo.TotalSpent(old(db.committed.spends), userId) + price))
    ensures !reply.Answer? ==> db.committed == old(db.committed)
    ensures NonNegativeBalances(old(db.committed)) ==> NonNegativeBalances(db.committed)
  {
    var found := ItemRepo.GetByID(db.committed, itemId, faults);
    if found.Err? {
      return Refusal(StatusInternalServerError, "Failed to get item");
    }
    if found.value.None? {
      return Refusal(StatusNotFound, "Item not found");
    }
    var item := found.value.value;
    if item.price.None? {
      return Refusal(StatusBadRequest, "Item cannot be purchased with points");
    }
    var price := item.price.value;
    ghost var before := db.committed;
    ghost var spendId := db.nextSpendId;
    var err, total := Transact(db, InTx, userId, itemId, pointlingId, price, now, faults);
    reply := PurchaseReply(err, itemId, price, total);
    if reply.Answer? {
      PurchaseKeepsBalances(before, userId, itemId, pointlingId, price, spendId, now);
    }
  }

  /** `getSpendHistory`: the user's purchases with their items, newest first,
      in the window the clamped limit and offset select. */
  method GetSpendHistory(db: Database, userId: int, requestedLimit: Option<int>, requestedOffset: Option<int>, faults: Faults)
    returns (reply: Reply<seq<SpendRepo.SpendRow>>)
    requires db.Valid()
    ensures reply.NoAnswer? == false
    ensures reply.Refusal? <==> SpendsQuery in faults
    ensures reply.Refusal? ==> reply == Refusal(StatusInternalServerError, "Failed to get spending history")
    ensures reply.Answer? ==>
              reply.status == StatusOK &&
              reply.body == Page(SpendRepo.SpendRowsNewestFirst(db.committed.spends, db.committed.items, userId),
                                 PageLimit(requestedLimit), PageOffset(requestedOffset))
    ensures reply.Answer? ==>
              |reply.body| <= MaxLimit &&
              forall row :: row in reply.body ==> row.spend in db.committed.spends && row.spend.userId == userId
  {
    var history := SpendRepo.GetByUser(db.committed, userId, PageLimit(requestedLimit), PageOffset(requestedOffset), faults);
    if history.Err? {
      return Refusal(StatusInternalServerError, "Failed to get spending history");
    }
    SpendRepo.SpendRowsBelong(db.committed.spends, db.committed.items, userId);
    return Answer(StatusOK, history.value);
  }
}
