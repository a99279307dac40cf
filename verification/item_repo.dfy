/** The item catalog repository (internal/repository/postgres/item.go). The
    reads are filters over the catalog; their `ORDER BY rarity, name` is a text
    collation the model leaves abstract, so they return the set of rows. */
module ItemRepo {
  import opened Entities
  import opened Store

  /** `GetByID`: the catalog row, None (and no error) when the id is unknown. */
  function GetByID(t: Tables, id: int, faults: Faults): (r: Result<Option<Item>>)
    requires Keyed(t)
    ensures r.Err? <==> SelectItem in faults
    ensures r.Ok? ==> (r.value.Some? <==> id in t.items)
    ensures r.Ok? && r.value.Some? ==> r.value.value.id == id && r.value.value == t.items[id]
  {
    if SelectItem in faults then Err(Wrapped("get item", Driver(faults[SelectItem])))
    else if id in t.items then Ok(Some(t.items[id]))
    else Ok(None)
  }

  /** `$n::text IS NULL OR column = $n` for each of the three filters; a NULL
      slot never equals a given slot. */
  predicate Matches(it: Item, category: Option<string>, rarity: Option<string>, slot: Option<string>)
  {
    (category.None? || it.category == category.value) &&
    (rarity.None? || it.rarity == rarity.value) &&
    (slot.None? || it.slot == Some(slot.value))
  }

  /** `List`: the catalog items passing every given filter. */
  function List(t: Tables, category: Option<string>, rarity: Option<string>, slot: Option<string>, faults: Faults)
    : (r: Result<set<Item>>)
    requires Keyed(t)
    ensures r.Err? <==> ListItemsQuery in faults
    ensures r.Ok? ==> forall it :: it in r.value <==>
              it.id in t.items && t.items[it.id] == it && Matches(it, category, rarity, slot)
  {
    if ListItemsQuery in faults then Err(Wrapped("list items query", Driver(faults[ListItemsQuery])))
    else Ok(set id | id in t.items && Matches(t.items[id], category, rarity, slot) :: t.items[id])
  }

  /** Without filters `List` returns every catalog item; with a slot filter it
      never returns an item without a slot, nor one of another slot. */
  lemma ListFilters(t: Tables, category: Option<string>, rarity: Option<string>, slot: Option<string>)
    requires Keyed(t)
    ensures forall id :: id in t.items ==> t.items[id] in List(t, None, None, None, map[]).value
    ensures forall it :: slot.Some? && it in List(t, category, rarity, slot, map[]).value ==> it.slot == slot
    ensures forall it :: category.Some? && it in List(t, category, rarity, slot, map[]).value ==> it.category == category.value
  {
  }

  /** `GetUnlocksForLevel`: the items whose unlock level is exactly `level`;
      an item without an unlock level is never among them. */
  function GetUnlocksForLevel(t: Tables, level: int, faults: Faults): (r: Result<set<Item>>)
    requires Keyed(t)
    ensures r.Err? <==> UnlocksQuery in faults
    ensures r.Ok? ==> forall it :: it in r.value <==>
              it.id in t.items && t.items[it.id] == it && it.unlockLevel == Some(level)
  {
    if UnlocksQuery in faults then Err(Wrapped("get level unlocks query", Driver(faults[UnlocksQuery])))
    else Ok(set id | id in t.items && t.items[id].unlockLevel == Some(level) :: t.items[id])
  }

  /** `Create`: stores the item's fields under a fresh serial id and returns the
      value with that id written back. */
  method Create(db: Database, item: Item, faults: Faults) returns (r: Result<Item>)
    requires db.Valid()
    modifies db`committed, db`live, db`locks, db`nextItemId
    ensures db.Valid()
    ensures r.Err? <==> ItemInsert in faults
    ensures r.Ok? ==> r.value == item.(id := r.value.id)
    ensures r.Ok? ==> r.value.id !in old(db.committed.items) && r.value.id !in old(db.live.items)
    ensures r.Ok? ==> db.committed == old(db.committed).(items := old(db.committed.items)[r.value.id := r.value])
    ensures r.Err? ==> db.committed == old(db.committed)
  {
    if ItemInsert in faults {
      return Err(Wrapped("create item", Driver(faults[ItemInsert])));
    }
    var id := db.DrawItemId();
    var stored := item.(id := id);
    var err := db.Exec(Direct, InsertItem(stored), ItemInsert, faults);
    assert err.None?;
    return Ok(stored);
  }
}
