/** The item endpoints (internal/handlers/items.go): the catalog, a pointling's
    inventory, acquiring an item and equipping it. */
module ItemHandler {
  import opened Entities
  import opened Store
  import opened Http
  import ItemRepo
  import PointlingRepo
  import InventoryRepo

  /** The three vocabulary checks `ValidateCategory`, `ValidateRarity` and
      `ValidateSlot`, whose definitions are not part of this model: each is the
      set of names it accepts. */
  datatype Vocabulary = Vocabulary(categories: set<string>, rarities: set<string>, slots: set<string>)

  /** A query parameter, absent when it is empty. */
  function Param(s: string): Option<string>
  {
    if s == "" then None else Some(s)
  }

  /** `listItems`: each non-empty filter must be a known name (checked in the
      order category, rarity, slot); the answer is the catalog items passing
      every given filter. */
  method ListItems(db: Database, v: Vocabulary, category: string, rarity: string, slot: string, faults: Faults)
    returns (reply: Reply<set<Item>>)
    requires db.Valid()
    ensures !reply.NoAnswer?
    ensures reply == Refusal(StatusBadRequest, "Invalid category") <==> category != "" && category !in v.categories
    ensures reply == Refusal(StatusBadRequest, "Invalid rarity") <==>
              (category == "" || category in v.categories) && rarity != "" && rarity !in v.rarities
    ensures reply == Refusal(StatusBadRequest, "Invalid slot") <==>
              (category == "" || category in v.categories) && (rarity == "" || rarity in v.rarities) &&
              slot != "" && slot !in v.slots
    ensures reply.Answer? <==>
              (category == "" || category in v.categories) && (rarity == "" || rarity in v.rarities) &&
              (slot == "" || slot in v.slots) && ListItemsQuery !in faults
    ensures reply.Refusal? && reply.status != StatusBadRequest ==>
              reply == Refusal(StatusInternalServerError, "Failed to list items")
    ensures reply.Answer? ==>
              reply.status == StatusOK &&
              forall it :: it in reply.body <==>
                it.id in db.committed.items && db.committed.items[it.id] == it &&
                (category == "" || it.category == category) && (rarity == "" || it.rarity == rarity) &&
                (slot == "" || it.slot == Some(slot))
  {
    if category != "" && category !in v.categories {
      return Refusal(StatusBadRequest, "Invalid category");
    }
    if rarity != "" && rarity !in v.rarities {
      return Refusal(StatusBadRequest, "Invalid rarity");
    }
    if slot != "" && slot !in v.slots {
      return Refusal(StatusBadRequest, "Invalid slot");
    }
    var items := ItemRepo.List(db.committed, Param(category), Param(rarity), Param(slot), faults);
    if items.Err? {
      return Refusal(StatusInternalServerError, "Failed to list items");
    }
    return Answer(StatusOK, items.value);
  }

  /** `getItem`: the catalog row, 404 when there is none. */
  method GetItem(db: Database, itemId: int, faults: Faults) returns (reply: Reply<Item>)
    requires db.Valid()
    ensures !reply.NoAnswer?
    ensures reply == Refusal(StatusInternalServerError, "Failed to get item") <==> SelectItem in faults
    ensures reply == Refusal(StatusNotFound, "Item not found") <==> SelectItem !in faults && itemId !in db.committed.items
    ensures reply.Answer? ==>
              itemId in db.committed.items && reply == Answer(StatusOK, db.committed.items[itemId]) && reply.body.id == itemId
  {
    var item := ItemRepo.GetByID(db.committed, itemId, faults);
    if item.Err? {
      return Refusal(StatusInternalServerError, "Failed to get item");
    }
    if item.value.None? {
      return Refusal(StatusNotFound, "Item not found");
    }
    return Answer(StatusOK, item.value.value);
  }

  /** The fields of a `createItem` request. */
  datatype NewItem = NewItem(
    category: string,
    slot: Option<string>,
    assetId: string,
    name: string,
    rarity: string,
    price: Option<int>,
    unlockLevel: Option<int>)

  /** The first objection `createItem` raises against a request, if any. */
  function CreateItemObjection(v: Vocabulary, req: NewItem): (message: Option<string>)
    ensures message.None? <==>
              req.category in v.categories && req.rarity in v.rarities &&
              (req.slot.None? || req.slot.value in v.slots) && req.name != "" && req.assetId != ""
    ensures req.name == "" || req.assetId == "" ==> message.Some?
  {
    if req.category !in v.categories then Some("Invalid category")
    else if req.rarity !in v.rarities then Some("Invalid rarity")
    else if req.slot.Some? && req.slot.value !in v.slots then Some("Invalid slot")
    else if req.name == "" || req.assetId == "" then Some("Name and asset_id are required")
    else None
  }

  /** `createItem`: a valid request is stored under a fresh id and echoed back
      with it; an invalid one is refused with 400 before the store is touched. */
  method CreateItem(db: Database, v: Vocabulary, req: NewItem, faults: Faults) returns (reply: Reply<Item>)
    requires db.Valid()
    modifies db`committed, db`live, db`locks, db`nextItemId
    ensures db.Valid() && !reply.NoAnswer?
    ensures CreateItemObjection(v, req).Some? ==>
              reply == Refusal(StatusBadRequest, CreateItemObjection(v, req).value) && db.committed == old(db.committed)
    ensures CreateItemObjection(v, req).None? && ItemInsert in faults ==>
              reply == Refusal(StatusInternalServerError, "Failed to create item") && db.committed == old(db.committed)
    ensures reply.Answer? <==> CreateItemObjection(v, req).None? && ItemInsert !in faults
    ensures reply.Answer? ==>
              var it := reply.body;
              reply.status == StatusCreated && it.id !in old(db.committed.items) &&
              it == Item(it.id, req.category, req.slot, req.assetId, req.name, req.rarity, req.price, req.unlockLevel) &&
              db.committed == old(db.committed).(items := old(db.committed.items)[it.id := it])
  {
    var objection := CreateItemObjection(v, req);
    if objection.Some? {
      return Refusal(StatusBadRequest, objection.value);
    }
    var item := Item(0, req.category, req.slot, req.assetId, req.name, req.rarity, req.price, req.unlockLevel);
    var created := ItemRepo.Create(db, item, faults);
    if created.Err? {
      return Refusal(StatusInternalServerError, "Failed to create item");
    }
    return Answer(StatusCreated, created.value);
  }

  /** The level gate of `acquireItem`: an item without an unlock level is open
      to every pointling; otherwise the pointling's level must reach it. */
  predicate MayAcquire(level: int, it: Item)
  {
    it.unlockLevel.None? || level >= it.unlockLevel.value
  }

  /** `acquireItem`: the item and the pointling must exist, the level gate must
      pass, and the edge must be new; the grant goes through the pool. No
      balance is charged. */
  method AcquireItem(db: Database, pointlingId: int, itemId: int, now: int, faults: Faults) returns (reply: Reply<Item>)
    requires db.Valid()
    modifies db`committed, db`live, db`locks
    ensures db.Valid()
    ensures SelectItem in faults ==> reply == Refusal(StatusInternalServerError, "Failed to get item")
    ensures SelectItem !in faults && itemId !in old(db.committed.items) ==> reply == Refusal(StatusNotFound, "Item not found")
    ensures SelectItem !in faults && itemId in old(db.committed.items) && SelectPointling in faults ==>
              reply == Refusal(StatusInternalServerError, "Failed to get pointling")
    ensures SelectItem !in faults && itemId in old(db.committed.items) && SelectPointling !in faults &&
            pointlingId !in old(db.committed.pointlings) ==>
              reply == Refusal(StatusNotFound, "Pointling not found")
    ensures reply == Refusal(StatusForbidden, "Level requirement not met") <==>
              SelectItem !in faults && itemId in old(db.committed.items) && SelectPointling !in faults &&
              pointlingId in old(db.committed.pointlings) &&
              !MayAcquire(old(db.committed.pointlings[pointlingId]).level, old(db.committed.items[itemId]))
    ensures reply == Refusal(StatusConflict, "Item already owned") <==>
              SelectItem !in faults && itemId in old(db.committed.items) && SelectPointling !in faults &&
              pointlingId in old(db.committed.pointlings) &&
              MayAcquire(old(db.committed.pointlings[pointlingId]).level, old(db.committed.items[itemId])) &&
              EdgeInsert !in faults && !old(db.Blocks(Direct, InsertEdge(pointlingId, itemId, now))) &&
              (pointlingId, itemId) in old(db.committed.owned)
    ensures reply.Answer? <==>
              SelectItem !in faults && itemId in old(db.committed.items) && SelectPointling !in faults &&
              pointlingId in old(db.committed.pointlings) &&
              MayAcquire(old(db.committed.pointlings[pointlingId]).level, old(db.committed.items[itemId])) &&
              EdgeInsert !in faults && !old(db.Blocks(Direct, InsertEdge(pointlingId, itemId, now))) &&
              (pointlingId, itemId) !in old(db.committed.owned)
    ensures reply.Answer? ==>
              reply == Answer(StatusOK, old(db.committed.items[itemId])) &&
              db.committed == old(db.committed).(owned := old(db.committed.owned)[(pointlingId, itemId) := Edge(now, false)])
    ensures !reply.Answer? ==> db.committed == old(db.committed)
    ensures db.committed.users == old(db.committed.users)
  {
    var item := ItemRepo.GetByID(db.committed, itemId, faults);
    if item.Err? {
      return Refusal(StatusInternalServerError, "Failed to get item");
    }
    if item.value.None? {
      return Refusal(StatusNotFound, "Item not found");
    }
    var pointling := PointlingRepo.GetByID(db.committed, pointlingId, faults);
    if pointling.Err? {
      return Refusal(StatusInternalServerError, "Failed to get pointling");
    }
    if pointling.value.None? {
      return Refusal(StatusNotFound, "Pointling not found");
    }
    var it := item.value.value;
    if it.unlockLevel.Some? && pointling.value.value.level < it.unlockLevel.value {
      return Refusal(StatusForbidden, "Level requirement not met");
    }
    var err := InventoryRepo.AddItem(db, Direct, pointlingId, itemId, now, faults);
    if err == Some(Stalled) {
      return NoAnswer;
    }
    if err == Some(AlreadyOwned) {
      return Refusal(StatusConflict, "Item already owned");
    }
    if err.Some? {
      return Refusal(StatusInternalServerError, "Failed to acquire item");
    }
    return Answer(StatusOK, it);
  }

  /** The level gate lets an item without an unlock level through at level 1,
      and one with an unlock level exactly at that level, but not below it. */
  lemma LevelGate(it: Item, level: int)
    ensures it.unlockLevel.None? ==> MayAcquire(1, it)
    ensures it.unlockLevel == Some(level) ==> MayAcquire(level, it) && !MayAcquire(level - 1, it)
  {
  }

  /** No error text except the not-owned error's own equals "pointling does not
      own this item": every wrapped or rollback error starts with its context,
      and none of the contexts of the equip flow starts with a 'p'. */
  lemma NotOwnedTextIsUnique(e: Error)
    requires e.Wrapped? ==> e.context != "" && e.context[0] != 'p'
    requires e.Driver? ==> e.message != NotOwnedText
    requires e.RowNotFound? ==> e.table != "" && e.table[0] != 'p'
    ensures Message(e) == NotOwnedText <==> e == NotOwned
  {
    if e.Wrapped? {
      assert Message(e)[0] == e.context[0];
    } else if e.RowNotFound? {
      assert Message(e)[0] == e.table[0];
    } else if e.RollbackFailed? {
      assert Message(e)[0] == 'r';
    } else if e.Stalled? {
      assert |Message(e)| != |NotOwnedText|;
    } else if e.DailyXPLimitReached? {
      assert Message(e)[0] == 'd';
    } else if e.InsufficientBalance? {
      assert Message(e)[0] == 'i';
    } else if e.AlreadyOwned? {
      assert Message(e)[0] == 'i';
    }
  }

  /** How `toggleEquipped` reports the transaction's outcome: the not-owned
      error is recognised by its text. */
  function ToggleReply(err: Option<Error>): (reply: Reply<()>)
    ensures reply.Answer? <==> err.None?
    ensures reply.Refusal? && reply.status == StatusNotFound <==> err.Some? && Message(err.value) == NotOwnedText
  {
    if err.None? then Answer(StatusNoContent, ())
    else if Message(err.value) == NotOwnedText then Refusal(StatusNotFound, Message(err.value))
    else Refusal(StatusInternalServerError, "Failed to toggle equipped status")
  }

  /** `toggleEquipped`: the repository's `ToggleEquipped` inside
      `InTransaction`. An edge the pointling does not have is answered 404 and
      the unequip statement that ran before the check is rolled back; on
      success the change is committed and one equipped item per slot is kept. */
  method ToggleEquipped(db: Database, pointlingId: int, itemId: int, equipped: bool, faults: Faults)
    returns (reply: Reply<()>)
    requires db.Valid() && !db.txOpen
    modifies db`committed, db`live, db`locks, db`txOpen
    ensures db.Valid() && !db.txOpen && !reply.NoAnswer?
    ensures reply.Answer? <==>
              BeginTx !in faults && (equipped ==> UnequipSlot !in faults) && EquipUpdate !in faults &&
              (pointlingId, itemId) in old(db.committed.owned) && CommitTx !in faults
    ensures reply.Answer? ==>
              reply.status == StatusNoContent && db.committed == InventoryRepo.Toggled(old(db.committed), pointlingId, itemId, equipped)
    ensures reply == Refusal(StatusNotFound, NotOwnedText) <==>
              BeginTx !in faults && (equipped ==> UnequipSlot !in faults) && EquipUpdate !in faults &&
              (pointlingId, itemId) !in old(db.committed.owned) && RollbackTx !in faults
    ensures !reply.Answer? ==> db.committed == old(db.committed)
    ensures InventoryRepo.SlotExclusive(old(db.committed)) ==> InventoryRepo.SlotExclusive(db.committed)
  {
    ghost var before := db.committed;
    var err := db.Begin(faults);
    if err.None? {
      var fnErr := InventoryRepo.ToggleEquipped(db, InTx, pointlingId, itemId, equipped, faults);
      err := db.Finish(fnErr, faults);
    }
    if err.Some? {
      NotOwnedTextIsUnique(err.value);
    }
    reply := ToggleReply(err);
    if reply.Answer? && InventoryRepo.SlotExclusive(before) {
      InventoryRepo.ToggledKeepsSlotExclusive(before, pointlingId, itemId, equipped);
    }
  }

  /** `getInventory`: the pointling's items, optionally only the equipped or
      only the unequipped ones (`equipped=true` selects the equipped ones, any
      other given value the unequipped ones). */
  method GetInventory(db: Database, pointlingId: int, equippedParam: Option<string>, faults: Faults)
    returns (reply: Reply<set<InventoryRepo.Owned>>)
    requires db.Valid()
    ensures !reply.NoAnswer?
    ensures reply.Refusal? <==> OwnedItemsQuery in faults
    ensures reply.Refusal? ==> reply == Refusal(StatusInternalServerError, "Failed to get inventory")
    ensures reply.Answer? ==> reply.status == StatusOK
    ensures reply.Answer? ==>
              reply.body == InventoryRepo.GetItems(db.committed, pointlingId,
                                                   if equippedParam.Some? then Some(equippedParam.value == "true") else None, faults).value
    ensures reply.Answer? ==> forall row :: row in reply.body <==>
              row.pointlingId == pointlingId && (row.pointlingId, row.itemId) in db.committed.owned &&
              row.edge == db.committed.owned[(row.pointlingId, row.itemId)] &&
              row.itemId in db.committed.items && row.item == db.committed.items[row.itemId] &&
              (equippedParam.None? || row.edge.equipped == (equippedParam.value == "true"))
  {
    var filter := if equippedParam.Some? then Some(equippedParam.value == "true") else None;
    var items := InventoryRepo.GetItems(db.committed, pointlingId, filter, faults);
    if items.Err? {
      return Refusal(StatusInternalServerError, "Failed to get inventory");
    }
    return Answer(StatusOK, items.value);
  }
}
