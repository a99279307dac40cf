/** The PostgreSQL database behind the repositories, seen from one request.

    The tables exist in two views: `committed`, what any connection of the pool
    sees, and `live`, what the request's open transaction sees. A statement sent
    through the transaction (`InTx`) changes `live` only and locks the rows it
    changes until the transaction ends; a statement sent through the plain pool
    (`Direct`) autocommits, so it changes both views, unless it would change a row
    the open transaction has locked: then it waits for a lock that is only
    released when the request itself moves on, so it never returns (`blocked`).
    Commit publishes `live`; rollback discards it. Serial id sequences live
    outside both views, as PostgreSQL sequences are not rolled back. */
module Store {
  import opened Entities
  import opened Seqs

  /** `r.db` (the pool) or `r.tx` (the transaction) of a repository's `txWrapper`. */
  datatype Handle = Direct | InTx

  datatype Tables = Tables(
    users: map<int, User>,
    /** user ids in insertion (`created_at`) order */
    userOrder: seq<int>,
    pointlings: map<int, Pointling>,
    items: map<int, Item>,
    /** `pointling_items`, keyed by (pointling id, item id) */
    owned: map<(int, int), Edge>,
    /** `xp_events` in insertion order */
    xpEvents: seq<XPEvent>,
    /** `point_spend` in insertion order */
    spends: seq<PointSpend>)

  const EmptyTables := Tables(map[], [], map[], map[], map[], [], [])

  /** A row that an UPDATE or a unique-key INSERT can lock. */
  datatype RowKey = UserRow(userId: int) | PointlingRow(pointlingId: int) | EdgeRow(pointlingId: int, itemId: int)

  /** The data-changing statements of the core. */
  datatype Write =
    | InsertUser(user: User)
    | SetBalance(userId: int, balance: int)
    /** the guarded `point_balance = point_balance - $1 ... AND point_balance >= $1` */
    | Debit(userId: int, points: int)
    | InsertPointling(pointling: Pointling)
    | SetXP(pointlingId: int, xp: int, required: int)
    | BumpXP(pointlingId: int, amount: int)
    | SetLevel(pointlingId: int, level: int)
    | SetNickname(pointlingId: int, nickname: Option<string>)
    | InsertItem(item: Item)
    /** `INSERT ... ON CONFLICT (pointling_id, item_id) DO NOTHING` */
    | InsertEdge(pointlingId: int, itemId: int, acquiredAt: int)
    /** unequip every equipped item of the pointling in the slot of `itemId` */
    | UnequipSlotOf(pointlingId: int, itemId: int)
    | SetEquipped(pointlingId: int, itemId: int, equipped: bool)
    | AppendEvent(event: XPEvent)
    | AppendSpend(spend: PointSpend)

  /** The slot of a catalog item; NULL (None) for an unknown item too. */
  function SlotOf(t: Tables, itemId: int): Option<string>
  {
    if itemId in t.items then t.items[itemId].slot else None
  }

  /** Whether the unequip statement for (`pid`, `iid`) hits edge `k`: an equipped
      item of that pointling whose slot equals the slot of `iid` (a NULL slot
      equals nothing). */
  predicate Unequips(t: Tables, pid: int, iid: int, k: (int, int))
    requires k in t.owned
  {
    k.0 == pid && t.owned[k].equipped && SlotOf(t, k.1).Some? && SlotOf(t, k.1) == SlotOf(t, iid)
  }

  function Unequip(t: Tables, pid: int, iid: int): (owned: map<(int, int), Edge>)
    ensures owned.Keys == t.owned.Keys
  {
    map k | k in t.owned :: if Unequips(t, pid, iid, k) then t.owned[k].(equipped := false) else t.owned[k]
  }

  /** The effect of one statement on one view of the tables. An UPDATE whose
      WHERE matches no row, and an INSERT of an existing key, change nothing. */
  function Apply(t: Tables, w: Write): Tables
  {
    match w
    case InsertUser(u) =>
      if u.id in t.users then t else t.(users := t.users[u.id := u], userOrder := t.userOrder + [u.id])
    case SetBalance(uid, b) =>
      if uid in t.users then t.(users := t.users[uid := t.users[uid].(balance := b)]) else t
    case Debit(uid, pts) =>
      if uid in t.users && t.users[uid].balance >= pts
      then t.(users := t.users[uid := t.users[uid].(balance := t.users[uid].balance - pts)])
      else t
    case InsertPointling(p) =>
      if p.id in t.pointlings then t else t.(pointlings := t.pointlings[p.id := p])
    case SetXP(pid, xp, req) =>
      if pid in t.pointlings
      then t.(pointlings := t.pointlings[pid := t.pointlings[pid].(currentXP := xp, requiredXP := req)])
      else t
    case BumpXP(pid, amount) =>
      if pid in t.pointlings
      then t.(pointlings := t.pointlings[pid := t.pointlings[pid].(currentXP := t.pointlings[pid].currentXP + amount)])
      else t
    case SetLevel(pid, level) =>
      if pid in t.pointlings then t.(pointlings := t.pointlings[pid := t.pointlings[pid].(level := level)]) else t
    case SetNickname(pid, nick) =>
      if pid in t.pointlings then t.(pointlings := t.pointlings[pid := t.pointlings[pid].(nickname := nick)]) else t
    case InsertItem(it) =>
      if it.id in t.items then t else t.(items := t.items[it.id := it])
    case InsertEdge(pid, iid, at) =>
      if (pid, iid) in t.owned then t else t.(owned := t.owned[(pid, iid) := Edge(at, false)])
    case UnequipSlotOf(pid, iid) =>
      t.(owned := Unequip(t, pid, iid))
    case SetEquipped(pid, iid, b) =>
      if (pid, iid) in t.owned then t.(owned := t.owned[(pid, iid) := t.owned[(pid, iid)].(equipped := b)]) else t
    case AppendEvent(e) =>
      t.(xpEvents := t.xpEvents + [e])
    case AppendSpend(s) =>
      t.(spends := t.spends + [s])
  }

  /** The rows a statement locks: the rows an UPDATE changes and the key a
      fresh INSERT claims. Another connection's statement on one of these rows
      waits until the locking transaction ends. */
  function Touches(t: Tables, w: Write): set<RowKey>
  {
    match w
    case InsertUser(u) => if u.id in t.users then {} else {UserRow(u.id)}
    case SetBalance(uid, _) => if uid in t.users then {UserRow(uid)} else {}
    case Debit(uid, pts) => if uid in t.users && t.users[uid].balance >= pts then {UserRow(uid)} else {}
    case SetXP(pid, _, _) => if pid in t.pointlings then {PointlingRow(pid)} else {}
    case BumpXP(pid, _) => if pid in t.pointlings then {PointlingRow(pid)} else {}
    case SetLevel(pid, _) => if pid in t.pointlings then {PointlingRow(pid)} else {}
    case SetNickname(pid, _) => if pid in t.pointlings then {PointlingRow(pid)} else {}
    case InsertEdge(pid, iid, _) => if (pid, iid) in t.owned then {} else {EdgeRow(pid, iid)}
    case UnequipSlotOf(pid, iid) => set k | k in t.owned && Unequips(t, pid, iid, k) :: EdgeRow(k.0, k.1)
    case SetEquipped(pid, iid, _) => if (pid, iid) in t.owned then {EdgeRow(pid, iid)} else {}
    case _ => {}
  }

  /** Keys agree with the rows' ids, the user order lists each user once, and
      serial ids lie below the next value of their sequence. */
  ghost predicate WellFormed(t: Tables, nextPointlingId: int, nextItemId: int)
  {
    Keyed(t) &&
    (forall p :: p in t.pointlings ==> 1 <= p < nextPointlingId) &&
    (forall i :: i in t.items ==> 1 <= i < nextItemId)
  }

  /** Each row is stored under its own id, and the user order lists each user once. */
  ghost predicate Keyed(t: Tables)
  {
    (forall u :: u in t.users ==> t.users[u].id == u) &&
    Distinct(t.userOrder) &&
    (forall i :: 0 <= i < |t.userOrder| ==> t.userOrder[i] in t.users) &&
    (forall u :: u in t.users ==> u in t.userOrder) &&
    (forall p :: p in t.pointlings ==> t.pointlings[p].id == p) &&
    (forall i :: i in t.items ==> t.items[i].id == i)
  }

  /** A serial id a statement inserts has been drawn from its sequence. */
  predicate Fits(w: Write, nextPointlingId: int, nextItemId: int)
  {
    (w.InsertPointling? ==> 1 <= w.pointling.id < nextPointlingId) &&
    (w.InsertItem? ==> 1 <= w.item.id < nextItemId)
  }

  lemma ApplyKeepsWellFormed(t: Tables, w: Write, np: int, ni: int)
    requires WellFormed(t, np, ni) && Fits(w, np, ni)
    ensures WellFormed(Apply(t, w), np, ni)
  {
    if w.InsertUser? || w.SetBalance? || w.Debit? {
      UserWriteKeepsWellFormed(t, w, np, ni);
    } else if w.InsertPointling? || w.SetXP? || w.BumpXP? || w.SetLevel? || w.SetNickname? {
      PointlingWriteKeepsWellFormed(t, w, np, ni);
    }
  }

  lemma UserWriteKeepsWellFormed(t: Tables, w: Write, np: int, ni: int)
    requires WellFormed(t, np, ni) && (w.InsertUser? || w.SetBalance? || w.Debit?)
    ensures WellFormed(Apply(t, w), np, ni)
  {
    if w.InsertUser? && w.user.id !in t.users {
      var t' := Apply(t, w);
      assert t'.userOrder == t.userOrder + [w.user.id];
      forall i, j | 0 <= i < j < |t'.userOrder|
        ensures t'.userOrder[i] != t'.userOrder[j]
      {
        if j == |t.userOrder| {
          assert t'.userOrder[i] == t.userOrder[i];
        }
      }
    }
  }

  lemma PointlingWriteKeepsWellFormed(t: Tables, w: Write, np: int, ni: int)
    requires WellFormed(t, np, ni) && Fits(w, np, ni)
    requires w.InsertPointling? || w.SetXP? || w.BumpXP? || w.SetLevel? || w.SetNickname?
    ensures WellFormed(Apply(t, w), np, ni)
  {
  }

  lemma WellFormedGrows(t: Tables, np: int, ni: int, np': int, ni': int)
    requires WellFormed(t, np, ni) && np <= np' && ni <= ni'
    ensures WellFormed(t, np', ni')
  {
  }

  /** The outcome of the transaction wrapper (`InTransaction` of each postgres
      repository) once the transaction body has returned `fnErr`. */
  function TxOutcome(fnErr: Option<Error>, faults: Faults): (err: Option<Error>)
    ensures fnErr.Some? && RollbackTx !in faults ==> err == fnErr
    ensures err.None? <==> fnErr.None? && CommitTx !in faults
    ensures fnErr.Some? && RollbackTx in faults ==> err.Some? && err.value.RollbackFailed? && err.value.original == fnErr.value
  {
    if fnErr.Some? then
      if RollbackTx in faults then Some(RollbackFailed(Driver(faults[RollbackTx]), fnErr.value)) else fnErr
    else if CommitTx in faults then Some(Wrapped("commit transaction", Driver(faults[CommitTx])))
    else None
  }

  class Database {
    var committed: Tables
    var live: Tables
    var txOpen: bool
    /** rows changed by the open transaction */
    var locks: set<RowKey>
    var nextPointlingId: int
    var nextItemId: int
    var nextEventId: int
    var nextSpendId: int

    ghost predicate Valid()
      reads this
    {
      (!txOpen ==> live == committed && locks == {}) &&
      nextPointlingId >= 1 && nextItemId >= 1 &&
      WellFormed(committed, nextPointlingId, nextItemId) &&
      WellFormed(live, nextPointlingId, nextItemId)
    }

    /** What a statement sent through handle `h` reads. */
    function View(h: Handle): Tables
      reads this`live, this`committed
    {
      if h == InTx then live else committed
    }

    constructor ()
      ensures Valid() && !txOpen
      ensures committed == EmptyTables
      ensures nextPointlingId == 1 && nextItemId == 1 && nextEventId == 1 && nextSpendId == 1
    {
      committed := EmptyTables;
      live := EmptyTables;
      txOpen := false;
      locks := {};
      nextPointlingId := 1;
      nextItemId := 1;
      nextEventId := 1;
      nextSpendId := 1;
    }

    /** Runs one data-changing statement. */
    method Perform(h: Handle, w: Write) returns (blocked: bool)
      requires Valid() && (h == InTx ==> txOpen) && Fits(w, nextPointlingId, nextItemId)
      modifies this`committed, this`live, this`locks
      ensures Valid()
      ensures blocked <==> h == Direct && Touches(old(committed), w) * old(locks) != {}
      ensures blocked ==> committed == old(committed) && live == old(live) && locks == old(locks)
      ensures !blocked ==> live == Apply(old(live), w)
      ensures !blocked ==> committed == if h == InTx then old(committed) else Apply(old(committed), w)
      ensures !blocked ==> locks == if h == InTx then old(locks) + Touches(old(live), w) else old(locks)
    {
      blocked := h == Direct && Touches(committed, w) * locks != {};
      if blocked {
        return;
      }
      ApplyKeepsWellFormed(live, w, nextPointlingId, nextItemId);
      ApplyKeepsWellFormed(committed, w, nextPointlingId, nextItemId);
      if h == InTx {
        locks := locks + Touches(live, w);
        live := Apply(live, w);
      } else {
        live := Apply(live, w);
        committed := Apply(committed, w);
      }
    }

    /** Whether statement `w` sent through `h` waits for a row the open transaction locked. */
    function Blocks(h: Handle, w: Write): bool
      reads this`committed, this`locks
    {
      h == Direct && Touches(committed, w) * locks != {}
    }

    /** Sends statement `w` (known to the fault map as `s`) through handle `h`:
        it fails with the driver's message when `s` is faulty, never returns
        when it waits for a lock of the open transaction, and otherwise changes
        the views as `Perform` does. */
    method Exec(h: Handle, w: Write, s: Stmt, faults: Faults) returns (err: Option<Error>)
      requires Valid() && (h == InTx ==> txOpen) && Fits(w, nextPointlingId, nextItemId)
      modifies this`committed, this`live, this`locks
      ensures Valid()
      ensures err == if s in faults then Some(Driver(faults[s])) else if old(Blocks(h, w)) then Some(Stalled) else None
      ensures err.Some? ==> committed == old(committed) && live == old(live) && locks == old(locks)
      ensures err.None? ==> live == Apply(old(live), w)
      ensures err.None? ==> committed == if h == InTx then old(committed) else Apply(old(committed), w)
      ensures err.None? ==> View(h) == Apply(old(View(h)), w)
      ensures err.None? ==> locks == if h == InTx then old(locks) + Touches(old(live), w) else old(locks)
    {
      if s in faults {
        return Some(Driver(faults[s]));
      }
      var blocked := Perform(h, w);
      err := if blocked then Some(Stalled) else None;
    }

    /** Draws the next `pointlings.pointling_id`. */
    method DrawPointlingId() returns (id: int)
      requires Valid()
      modifies this`nextPointlingId
      ensures Valid()
      ensures id == old(nextPointlingId) && nextPointlingId == id + 1
    {
      id := nextPointlingId;
      WellFormedGrows(committed, nextPointlingId, nextItemId, nextPointlingId + 1, nextItemId);
      WellFormedGrows(live, nextPointlingId, nextItemId, nextPointlingId + 1, nextItemId);
      nextPointlingId := nextPointlingId + 1;
    }

    /** Draws the next `items.item_id`. */
    method DrawItemId() returns (id: int)
      requires Valid()
      modifies this`nextItemId
      ensures Valid()
      ensures id == old(nextItemId) && nextItemId == id + 1
    {
      id := nextItemId;
      WellFormedGrows(committed, nextPointlingId, nextItemId, nextPointlingId, nextItemId + 1);
      WellFormedGrows(live, nextPointlingId, nextItemId, nextPointlingId, nextItemId + 1);
      nextItemId := nextItemId + 1;
    }

    /** Draws the next `xp_events.event_id`. */
    method DrawEventId() returns (id: int)
      modifies this`nextEventId
      ensures id == old(nextEventId) && nextEventId == id + 1
    {
      id := nextEventId;
      nextEventId := nextEventId + 1;
    }

    /** Draws the next `point_spend.spend_id`. */
    method DrawSpendId() returns (id: int)
      modifies this`nextSpendId
      ensures id == old(nextSpendId) && nextSpendId == id + 1
    {
      id := nextSpendId;
      nextSpendId := nextSpendId + 1;
    }

    /** `r.db.BeginTx`; a failure is reported as "begin transaction: <cause>". */
    method Begin(faults: Faults) returns (err: Option<Error>)
      requires Valid() && !txOpen
      modifies this`txOpen
      ensures Valid()
      ensures err == if BeginTx in faults then Some(Wrapped("begin transaction", Driver(faults[BeginTx]))) else None
      ensures txOpen <==> err.None?
    {
      if BeginTx in faults {
        err := Some(Wrapped("begin transaction", Driver(faults[BeginTx])));
      } else {
        err := None;
        txOpen := true;
      }
    }

    /** Ends the transaction once its body returned `fnErr`: commit on success,
        rollback otherwise. A failed commit or rollback leaves nothing of the
        transaction behind either, as the server aborts it. */
    method Finish(fnErr: Option<Error>, faults: Faults) returns (err: Option<Error>)
      requires Valid() && txOpen
      modifies this`txOpen, this`committed, this`live, this`locks
      ensures Valid() && !txOpen
      ensures err == TxOutcome(fnErr, faults)
      ensures committed == if err.None? then old(live) else old(committed)
    {
      err := TxOutcome(fnErr, faults);
      if err.None? {
        committed := live;
      } else {
        live := committed;
      }
      locks := {};
      txOpen := false;
    }
  }

  /** Every user's balance is non-negative. */
  ghost predicate NonNegativeBalances(t: Tables)
  {
    forall u :: u in t.users ==> t.users[u].balance >= 0
  }
}
