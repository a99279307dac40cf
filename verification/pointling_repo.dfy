/** The pointlings repository (internal/repository/postgres/pointling.go).

    The source repository always sends its statements through the pool; the
    updates take the handle as a parameter only so that the corrected XP flow
    (see `XPHandler.AddXPAtomic`) can send them through its transaction. */
module PointlingRepo {
  import opened Entities
  import opened Store

  /** `Create`: stores the pointling's fields under a fresh serial id and returns
      the value with the id and creation time written back. */
  method Create(db: Database, p: Pointling, now: int, faults: Faults) returns (r: Result<Pointling>)
    requires db.Valid()
    modifies db`committed, db`live, db`locks, db`nextPointlingId
    ensures db.Valid()
    ensures r.Err? <==> PointlingInsert in faults
    ensures r.Ok? ==> r.value == p.(id := r.value.id, createdAt := now)
    ensures r.Ok? ==> r.value.id !in old(db.committed.pointlings) && r.value.id !in old(db.live.pointlings)
    ensures r.Ok? ==> db.committed == old(db.committed).(pointlings := old(db.committed.pointlings)[r.value.id := r.value])
    ensures r.Err? ==> db.committed == old(db.committed)
  {
    if PointlingInsert in faults {
      return Err(Wrapped("create pointling", Driver(faults[PointlingInsert])));
    }
    var id := db.DrawPointlingId();
    var stored := p.(id := id, createdAt := now);
    var err := db.Exec(Direct, InsertPointling(stored), PointlingInsert, faults);
    assert err.None?;
    return Ok(stored);
  }

  /** `GetByID`: the stored row, None (and no error) when the id is unknown. */
  function GetByID(t: Tables, id: int, faults: Faults): (r: Result<Option<Pointling>>)
    requires Keyed(t)
    ensures r.Err? <==> SelectPointling in faults
    ensures r.Ok? ==> (r.value.Some? <==> id in t.pointlings)
    ensures r.Ok? && r.value.Some? ==> r.value.value.id == id && r.value.value == t.pointlings[id]
  {
    if SelectPointling in faults then Err(Wrapped("get pointling", Driver(faults[SelectPointling])))
    else if id in t.pointlings then Ok(Some(t.pointlings[id]))
    else Ok(None)
  }

  /** `GetByUserID`: exactly the user's pointlings, newest first. Serial ids are
      drawn in creation order, so the loop walks the ids downwards. */
  method GetByUserID(db: Database, userId: int, faults: Faults) returns (r: Result<seq<Pointling>>)
    requires db.Valid()
    ensures r.Err? <==> PointlingsOfUser in faults
    ensures r.Ok? ==> forall k :: 0 <= k < |r.value| ==>
              r.value[k].id in db.committed.pointlings && db.committed.pointlings[r.value[k].id] == r.value[k] &&
              r.value[k].userId == userId
    ensures r.Ok? ==> forall id :: id in db.committed.pointlings && db.committed.pointlings[id].userId == userId ==>
              db.committed.pointlings[id] in r.value
    ensures r.Ok? ==> forall j, k :: 0 <= j < k < |r.value| ==> r.value[j].id > r.value[k].id
  {
    if PointlingsOfUser in faults {
      return Err(Wrapped("query pointlings", Driver(faults[PointlingsOfUser])));
    }
    var t := db.committed;
    var rows: seq<Pointling> := [];
    var id := db.nextPointlingId - 1;
    while id >= 1
      invariant id < db.nextPointlingId
      invariant forall k :: 0 <= k < |rows| ==>
                  rows[k].id in t.pointlings && t.pointlings[rows[k].id] == rows[k] &&
                  rows[k].userId == userId && rows[k].id > id
      invariant forall x :: x in t.pointlings && x > id && t.pointlings[x].userId == userId ==> t.pointlings[x] in rows
      invariant forall j, k :: 0 <= j < k < |rows| ==> rows[j].id > rows[k].id
      decreases id
    {
      if id in t.pointlings && t.pointlings[id].userId == userId {
        rows := rows + [t.pointlings[id]];
      }
      id := id - 1;
    }
    return Ok(rows);
  }

  /** `UpdateXP`: sets `current_xp` and `required_xp` of one pointling and
      nothing else; an unknown id is "pointling not found: <id>". */
  method UpdateXP(db: Database, h: Handle, id: int, currentXP: int, requiredXP: int, faults: Faults)
    returns (err: Option<Error>)
    requires db.Valid() && (h == InTx ==> db.txOpen)
    modifies db`committed, db`live, db`locks
    ensures db.Valid()
    ensures err == if UpdatePointlingXP in faults then Some(Wrapped("update xp", Driver(faults[UpdatePointlingXP])))
                   else if old(db.Blocks(h, SetXP(id, currentXP, requiredXP))) then Some(Stalled)
                   else if id !in old(db.View(h).pointlings) then Some(RowNotFound("pointling", id))
                   else None
    ensures err.None? ==> db.View(h) == old(db.View(h)).(pointlings := old(db.View(h).pointlings)[id :=
              old(db.View(h).pointlings)[id].(currentXP := currentXP, requiredXP := requiredXP)])
    ensures err.Some? || h == InTx ==> db.committed == old(db.committed)
  {
    if UpdatePointlingXP in faults {
      return Some(Wrapped("update xp", Driver(faults[UpdatePointlingXP])));
    }
    var missing := id !in db.View(h).pointlings;
    err := db.Exec(h, SetXP(id, currentXP, requiredXP), UpdatePointlingXP, faults);
    if err.None? && missing {
      err := Some(RowNotFound("pointling", id));
    }
  }

  /** `UpdateLevel`: sets the level of one pointling and nothing else; an unknown
      id is "pointling not found: <id>". */
  method UpdateLevel(db: Database, h: Handle, id: int, level: int, faults: Faults) returns (err: Option<Error>)
    requires db.Valid() && (h == InTx ==> db.txOpen)
    modifies db`committed, db`live, db`locks
    ensures db.Valid()
    ensures err == if UpdatePointlingLevel in faults then Some(Wrapped("update level", Driver(faults[UpdatePointlingLevel])))
                   else if old(db.Blocks(h, SetLevel(id, level))) then Some(Stalled)
                   else if id !in old(db.View(h).pointlings) then Some(RowNotFound("pointling", id))
                   else None
    ensures err.None? ==> db.View(h) == old(db.View(h)).(pointlings := old(db.View(h).pointlings)[id :=
              old(db.View(h).pointlings)[id].(level := level)])
    ensures err.Some? || h == InTx ==> db.committed == old(db.committed)
  {
    if UpdatePointlingLevel in faults {
      return Some(Wrapped("update level", Driver(faults[UpdatePointlingLevel])));
    }
    var missing := id !in db.View(h).pointlings;
    err := db.Exec(h, SetLevel(id, level), UpdatePointlingLevel, faults);
    if err.None? && missing {
      err := Some(RowNotFound("pointling", id));
    }
  }

  /** `UpdateNickname`: sets (or, with None, clears) the nickname of one
      pointling and nothing else; an unknown id is "pointling not found: <id>". */
  method UpdateNickname(db: Database, id: int, nickname: Option<string>, faults: Faults) returns (err: Option<Error>)
    requires db.Valid()
    modifies db`committed, db`live, db`locks
    ensures db.Valid()
    ensures err == if UpdatePointlingNickname in faults then Some(Wrapped("update nickname", Driver(faults[UpdatePointlingNickname])))
                   else if old(db.Blocks(Direct, SetNickname(id, nickname))) then Some(Stalled)
                   else if id !in old(db.committed.pointlings) then Some(RowNotFound("pointling", id))
                   else None
    ensures err.None? ==> db.committed == old(db.committed).(pointlings := old(db.committed.pointlings)[id :=
              old(db.committed.pointlings)[id].(nickname := nickname)])
    ensures err.Some? ==> db.committed == old(db.committed)
  {
    if UpdatePointlingNickname in faults {
      return Some(Wrapped("update nickname", Driver(faults[UpdatePointlingNickname])));
    }
    var missing := id !in db.committed.pointlings;
    err := db.Exec(Direct, SetNickname(id, nickname), UpdatePointlingNickname, faults);
    if err.None? && missing {
      err := Some(RowNotFound("pointling", id));
    }
  }
}
