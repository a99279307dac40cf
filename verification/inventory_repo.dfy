/** The inventory repository (internal/repository/postgres/pointling_item.go):
    the `pointling_items` edges between pointlings and catalog items, with their
    acquisition time and equipped flag. */
module InventoryRepo {
  import opened Entities
  import opened Store

  /** `AddItem`: inserts the edge unequipped, stamped `now`; an existing edge is
      left as it is (`ON CONFLICT DO NOTHING`) and reported as `ErrAlreadyOwned`. */
  method AddItem(db: Database, h: Handle, pointlingId: int, itemId: int, now: int, faults: Faults)
    returns (err: Option<Error>)
    requires db.Valid() && (h == InTx ==> db.txOpen)
    modifies db`committed, db`live, db`locks
    ensures db.Valid()
    ensures err == if EdgeInsert in faults then Some(Wrapped("add item", Driver(faults[EdgeInsert])))
                   else if old(db.Blocks(h, InsertEdge(pointlingId, itemId, now))) then Some(Stalled)
                   else if (pointlingId, itemId) in old(db.View(h).owned) then Some(AlreadyOwned)
                   else None
    ensures err.Some? ==> db.View(h) == old(db.View(h))
    ensures err.None? ==> db.View(h) == old(db.View(h)).(owned := old(db.View(h).owned)[(pointlingId, itemId) := Edge(now, false)])
    ensures err.Some? || h == InTx ==> db.committed == old(db.committed)
    ensures err.None? && (pointlingId, itemId) !in old(db.live.owned) ==>
              db.live == old(db.live).(owned := old(db.live.owned)[(pointlingId, itemId) := Edge(now, false)])
  {
    if EdgeInsert in faults {
      return Some(Wrapped("add item", Driver(faults[EdgeInsert])));
    }
    var present := (pointlingId, itemId) in db.View(h).owned;
    err := db.Exec(h, InsertEdge(pointlingId, itemId, now), EdgeInsert, faults);
    if err.None? && present {
      err := Some(AlreadyOwned);
    }
  }

  /** A row of the inventory: the edge joined with its catalog item. */
  datatype Owned = Owned(pointlingId: int, itemId: int, edge: Edge, item: Item)

  /** `GetItems`: the pointling's edges whose item is in the catalog (the inner
      join), only those whose equipped flag equals `equipped` when it is given.
      The `ORDER BY acquired_at DESC` is left abstract, so the result is a set. */
  function GetItems(t: Tables, pointlingId: int, equipped: Option<bool>, faults: Faults): (r: Result<set<Owned>>)
    ensures r.Err? <==> OwnedItemsQuery in faults
    ensures r.Ok? ==> forall row :: row in r.value <==>
              row.pointlingId == pointlingId && (row.pointlingId, row.itemId) in t.owned &&
              row.edge == t.owned[(row.pointlingId, row.itemId)] &&
              row.itemId in t.items && row.item == t.items[row.itemId] &&
              (equipped.None? || row.edge.equipped == equipped.value)
  {
    if OwnedItemsQuery in faults then Err(Wrapped("get items query", Driver(faults[OwnedItemsQuery])))
    else Ok(set k | k in t.owned && k.0 == pointlingId && k.1 in t.items &&
                    (equipped.None? || t.owned[k].equipped == equipped.value)
                  :: Owned(k.0, k.1, t.owned[k], t.items[k.1]))
  }

  /** At most one equipped item per pointling and (non-NULL) slot. */
  ghost predicate SlotExclusive(t: Tables)
  {
    forall a, b ::
      (a in t.owned && b in t.owned && a != b && a.0 == b.0 &&
       t.owned[a].equipped && t.owned[b].equipped && SlotOf(t, a.1).Some?) ==> SlotOf(t, a.1) != SlotOf(t, b.1)
  }

  /** `GetEquippedInSlot`: an equipped item of the pointling in `slot`, None when
      there is none. The source reads one row without an ORDER BY; under
      `SlotExclusive` there is at most one such row (`EquippedInSlotUnique`). */
  method GetEquippedInSlot(t: Tables, pointlingId: int, slot: string, faults: Faults) returns (r: Result<Option<Owned>>)
    ensures r.Err? <==> EquippedInSlotQuery in faults
    ensures r.Ok? ==> (r.value.None? <==>
              forall k :: k in t.owned && k.0 == pointlingId && t.owned[k].equipped ==> SlotOf(t, k.1) != Some(slot))
    ensures r.Ok? && r.value.Some? ==>
              var row := r.value.value;
              row.pointlingId == pointlingId && (pointlingId, row.itemId) in t.owned &&
              row.edge == t.owned[(pointlingId, row.itemId)] && row.edge.equipped &&
              row.itemId in t.items && row.item == t.items[row.itemId] && row.item.slot == Some(slot)
  {
    if EquippedInSlotQuery in faults {
      return Err(Wrapped("get equipped item", Driver(faults[EquippedInSlotQuery])));
    }
    if k :| k in t.owned && k.0 == pointlingId && t.owned[k].equipped && SlotOf(t, k.1) == Some(slot) {
      return Ok(Some(Owned(k.0, k.1, t.owned[k], t.items[k.1])));
    }
    return Ok(None);
  }

  /** Under `SlotExclusive` the equipped item of a slot is unique. */
  lemma EquippedInSlotUnique(t: Tables, pointlingId: int, slot: string, a: (int, int), b: (int, int))
    requires SlotExclusive(t)
    requires a in t.owned && a.0 == pointlingId && t.owned[a].equipped && SlotOf(t, a.1) == Some(slot)
    requires b in t.owned && b.0 == pointlingId && t.owned[b].equipped && SlotOf(t, b.1) == Some(slot)
    ensures a == b
  {
  }

  /** The effect of `ToggleEquipped` on the inventory: when equipping, every
      equipped item of the pointling in the target's slot is unequipped first;
      then the target edge's flag is set. */
  function Toggled(t: Tables, pointlingId: int, itemId: int, equipped: bool): Tables
  {
    var t1 := if equipped then Apply(t, UnequipSlotOf(pointlingId, itemId)) else t;
    Apply(t1, SetEquipped(pointlingId, itemId, equipped))
  }

  /** Toggling keeps the set of edges, leaves the target with the requested flag,
      and changes no edge of another pointling. */
  lemma ToggledTarget(t: Tables, pointlingId: int, itemId: int, equipped: bool)
    ensures Toggled(t, pointlingId, itemId, equipped).owned.Keys == t.owned.Keys
    ensures (pointlingId, itemId) in t.owned ==>
              Toggled(t, pointlingId, itemId, equipped).owned[(pointlingId, itemId)] ==
              t.owned[(pointlingId, itemId)].(equipped := equipped)
    ensures forall k :: k in t.owned && k.0 != pointlingId ==> Toggled(t, pointlingId, itemId, equipped).owned[k] == t.owned[k]
    ensures Toggled(t, pointlingId, itemId, equipped).(owned := t.owned) == t
  {
  }

  /** Unequipping touches only the pointling's equipped items in the target's
      (non-NULL) slot; an unequip never equips anything. */
  lemma ToggledOthers(t: Tables, pointlingId: int, itemId: int, equipped: bool)
    ensures forall k :: k in t.owned && k != (pointlingId, itemId) && !equipped ==>
              Toggled(t, pointlingId, itemId, equipped).owned[k] == t.owned[k]
    ensures forall k :: k in t.owned && k != (pointlingId, itemId) && (SlotOf(t, k.1).None? || SlotOf(t, k.1) != SlotOf(t, itemId)) ==>
              Toggled(t, pointlingId, itemId, equipped).owned[k] == t.owned[k]
    ensures forall k :: k in t.owned && k != (pointlingId, itemId) ==>
              (Toggled(t, pointlingId, itemId, equipped).owned[k].equipped ==> t.owned[k].equipped)
  {
  }

  /** Equipping an owned item in a slot leaves it the only equipped item of the
      pointling in that slot. */
  lemma ToggledEquipsAlone(t: Tables, pointlingId: int, itemId: int)
    requires (pointlingId, itemId) in t.owned && SlotOf(t, itemId).Some?
    ensures var t' := Toggled(t, pointlingId, itemId, true);
            forall k :: k in t'.owned && k.0 == pointlingId && t'.owned[k].equipped && SlotOf(t', k.1) == SlotOf(t, itemId) ==>
              k == (pointlingId, itemId)
  {
    var t' := Toggled(t, pointlingId, itemId, true);
    var u := Apply(t, UnequipSlotOf(pointlingId, itemId));
    forall k | k in t'.owned && k.0 == pointlingId && t'.owned[k].equipped && SlotOf(t', k.1) == SlotOf(t, itemId)
      ensures k == (pointlingId, itemId)
    {
      if k != (pointlingId, itemId) {
        assert t'.owned[k] == u.owned[k];
        assert Unequips(t, pointlingId, itemId, k);
      }
    }
  }

  /** Toggling preserves the one-equipped-item-per-slot invariant. */
  lemma ToggledKeepsSlotExclusive(t: Tables, pointlingId: int, itemId: int, equipped: bool)
    requires SlotExclusive(t)
    ensures SlotExclusive(Toggled(t, pointlingId, itemId, equipped))
  {
    var t' := Toggled(t, pointlingId, itemId, equipped);
    ToggledTarget(t, pointlingId, itemId, equipped);
    ToggledOthers(t, pointlingId, itemId, equipped);
    assert t'.items == t.items;
    forall a, b | a in t'.owned && b in t'.owned && a != b && a.0 == b.0 &&
                  t'.owned[a].equipped && t'.owned[b].equipped && SlotOf(t', a.1).Some?
      ensures SlotOf(t', a.1) != SlotOf(t', b.1)
    {
      var target := (pointlingId, itemId);
      if a != target && b != target {
        assert t.owned[a].equipped && t.owned[b].equipped;
      } else if equipped && SlotOf(t, itemId).Some? {
        ToggledEquipsAlone(t, pointlingId, itemId);
      }
    }
  }

  /** The unequip UPDATE of `ToggleEquipped`: clears the flag of the
      pointling's equipped items in the slot of `itemId`. */
  method ClearSlot(db: Database, h: Handle, pointlingId: int, itemId: int, faults: Faults) returns (err: Option<Error>)
    requires db.Valid() && (h == InTx ==> db.txOpen)
    modifies db`committed, db`live, db`locks
    ensures db.Valid()
    ensures err == if UnequipSlot in faults then Some(Wrapped("unequip current item", Driver(faults[UnequipSlot])))
                   else if old(db.Blocks(h, UnequipSlotOf(pointlingId, itemId))) then Some(Stalled)
                   else None
    ensures err.None? ==> db.View(h) == Apply(old(db.View(h)), UnequipSlotOf(pointlingId, itemId))
    ensures db.live.owned.Keys == old(db.live.owned.Keys) && db.View(h).owned.Keys == old(db.View(h).owned.Keys)
    ensures h == InTx ==> db.committed == old(db.committed)
  {
    if UnequipSlot in faults {
      return Some(Wrapped("unequip current item", Driver(faults[UnequipSlot])));
    }
    err := db.Exec(h, UnequipSlotOf(pointlingId, itemId), UnequipSlot, faults);
  }

  /** The flag UPDATE of `ToggleEquipped`; no affected row means the pointling
      does not own the item. */
  method SetFlag(db: Database, h: Handle, pointlingId: int, itemId: int, equipped: bool, faults: Faults)
    returns (err: Option<Error>)
    requires db.Valid() && (h == InTx ==> db.txOpen)
    modifies db`committed, db`live, db`locks
    ensures db.Valid()
    ensures err == if EquipUpdate in faults then Some(Wrapped("toggle equipped", Driver(faults[EquipUpdate])))
                   else if old(db.Blocks(h, SetEquipped(pointlingId, itemId, equipped))) then Some(Stalled)
                   else if (pointlingId, itemId) !in old(db.View(h).owned) then Some(NotOwned)
                   else None
    ensures err.None? || err == Some(NotOwned) ==>
              db.View(h) == Apply(old(db.View(h)), SetEquipped(pointlingId, itemId, equipped))
    ensures h == InTx ==> db.committed == old(db.committed)
  {
    if EquipUpdate in faults {
      return Some(Wrapped("toggle equipped", Driver(faults[EquipUpdate])));
    }
    var missing := (pointlingId, itemId) !in db.View(h).owned;
    err := db.Exec(h, SetEquipped(pointlingId, itemId, equipped), EquipUpdate, faults);
    if err.None? && missing {
      err := Some(NotOwned);
    }
  }

  /** `ToggleEquipped`: sets the edge's equipped flag, unequipping the slot's
      current item first when equipping. A missing edge is reported as
      "pointling does not own this item" (after the unequip statement has run,
      which the caller's rollback undoes). */
  method ToggleEquipped(db: Database, h: Handle, pointlingId: int, itemId: int, equipped: bool, faults: Faults)
    returns (err: Option<Error>)
    requires db.Valid() && (h == InTx ==> db.txOpen)
    modifies db`committed, db`live, db`locks
    ensures db.Valid()
    ensures equipped && UnequipSlot in faults ==> err == Some(Wrapped("unequip current item", Driver(faults[UnequipSlot])))
    ensures (!equipped || UnequipSlot !in faults) && h == InTx ==>
              err == if EquipUpdate in faults then Some(Wrapped("toggle equipped", Driver(faults[EquipUpdate])))
                     else if (pointlingId, itemId) !in old(db.live.owned) then Some(NotOwned)
                     else None
    ensures err.None? ==> db.View(h) == Toggled(old(db.View(h)), pointlingId, itemId, equipped)
    ensures err == Some(NotOwned) ==> db.View(h) == Toggled(old(db.View(h)), pointlingId, itemId, equipped)
    ensures err.None? ==> (pointlingId, itemId) in old(db.View(h).owned)
    ensures err.Some? ==> err == Some(NotOwned) || err == Some(Stalled) || err.value.Wrapped?
    ensures h == InTx ==> db.committed == old(db.committed)
  {
    if equipped {
      err := ClearSlot(db, h, pointlingId, itemId, faults);
      if err.Some? {
        return;
      }
    }
    err := SetFlag(db, h, pointlingId, itemId, equipped, faults);
  }
}
