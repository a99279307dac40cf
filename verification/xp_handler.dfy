/** The XP endpoints (internal/handlers/xp.go): granting XP with its level-up
    rule, and the XP history. */
module XPHandler {
  import opened Entities
  import opened Store
  import opened Seqs
  import opened Http
  import opened XPSource
  import opened LevelCurve
  import PointlingRepo
  import XPRepo

  /** The body of a successful grant. `newLevel` is 0 (left out of the JSON)
      without a level-up. */
  datatype AddXPResponse = AddXPResponse(
    xpGained: int,
    newTotal: int,
    leveledUp: bool,
    newLevel: int,
    requiredXP: int,
    pointlingId: int,
    event: XPEvent)

  /** The request checks made before the store is touched. */
  predicate Admissible(source: string, amount: int)
  {
    ValidateSource(source) && 0 < amount <= GetXPPerAction(source)
  }

  /** The pointling row a grant of `amount` leaves behind, computed from the
      snapshot `p` read before the transaction: the new total is kept, and when
      it reaches the requirement the pointling gains one level and the
      requirement of that level. */
  function LevelUp(p: Pointling, amount: int): Pointling
  {
    var total := p.currentXP + amount;
    if total >= p.requiredXP
    then p.(level := p.level + 1, currentXP := total, requiredXP := CalculateNextLevelXP(p.level + 1))
    else p.(currentXP := total)
  }

  /** One grant raises the level by at most one, exactly when the new total
      reaches the requirement; the XP total is never reset; without a level-up
      the requirement stays; nothing else of the row changes. */
  lemma LevelUpRule(p: Pointling, amount: int)
    ensures LevelUp(p, amount).currentXP == p.currentXP + amount
    ensures LevelUp(p, amount).level == p.level + 1 <==> p.currentXP + amount >= p.requiredXP
    ensures LevelUp(p, amount).level == p.level <==> p.currentXP + amount < p.requiredXP
    ensures p.currentXP + amount >= p.requiredXP ==>
              LevelUp(p, amount).requiredXP == CalculateNextLevelXP(p.level + 1)
    ensures p.currentXP + amount < p.requiredXP ==> LevelUp(p, amount).requiredXP == p.requiredXP
    ensures LevelUp(p, amount).(level := p.level, currentXP := p.currentXP, requiredXP := p.requiredXP) == p
  {
  }

  /** A pointling whose requirement is the curve's value for its level. */
  predicate OnCurve(p: Pointling)
  {
    p.requiredXP == CalculateNextLevelXP(p.level)
  }

  /** New pointlings start on the curve and every grant keeps them there. */
  lemma {:induction false} GrantsStayOnCurve(p: Pointling, amounts: seq<int>)
    requires OnCurve(p)
    ensures OnCurve(Grants(p, amounts))
    ensures Grants(p, amounts).level >= p.level
    ensures Grants(p, amounts).level <= p.level + |amounts|
    decreases |amounts|
  {
    if amounts != [] {
      GrantsStayOnCurve(LevelUp(p, amounts[0]), amounts[1..]);
    }
  }

  /** A sequence of grants, oldest first. */
  function Grants(p: Pointling, amounts: seq<int>): Pointling
    decreases |amounts|
  {
    if amounts == [] then p else Grants(LevelUp(p, amounts[0]), amounts[1..])
  }

  /** The surplus is not carried over: a fresh pointling granted 10 XP reaches
      level 2 with 10 XP against a requirement of 6, so its next grant levels it
      up again whatever the amount. */
  lemma LevelUpKeepsSurplus()
    ensures var p := LevelUp(NewPointling(7, None), 10);
            p.level == 2 && p.currentXP == 10 && p.requiredXP == 6 &&
            LevelUp(p, 1).level == 3
  {
  }

  /** Today's total for (pointling, source) plus `amount` stays within the
      source's daily cap. */
  predicate WithinCap(t: Tables, pointlingId: int, source: string, amount: int, today: int)
  {
    XPRepo.DailyXP(t.xpEvents, pointlingId, source, today) + amount <= GetMaxDailyXP(source)
  }

  /** None of the statements of `AddXP` in the repository fails. */
  predicate GrantRuns(faults: Faults)
  {
    DailyXPSum !in faults && InsertXPEvent !in faults && IncrementXP !in faults
  }

  /** The first write-back statement of the level-up decision. */
  function FirstWriteBack(p: Pointling, amount: int): Stmt
  {
    if p.currentXP + amount >= p.requiredXP then UpdatePointlingLevel else UpdatePointlingXP
  }

  /** None of the write-back statements of the level-up decision fails. */
  predicate WriteBackRuns(p: Pointling, amount: int, faults: Faults)
  {
    FirstWriteBack(p, amount) !in faults && UpdatePointlingXP !in faults
  }

  /** The response a successful grant reports. */
  function Response(p: Pointling, amount: int, event: XPEvent): AddXPResponse
  {
    var leveled := p.currentXP + amount >= p.requiredXP;
    AddXPResponse(amount, p.currentXP + amount, leveled, if leveled then p.level + 1 else 0,
                  LevelUp(p, amount).requiredXP, p.id, event)
  }

  /** The function `addXP` hands to `InTransaction`, run on a freshly begun
      transaction: the grant goes through the transaction; the level and XP
      write-back goes through `writeBack`, which is the pool in the source.
      Through the pool the write-back waits for the row lock the transaction's
      own increment holds (`Stalled`) unless the statement fails first; through
      the transaction it leaves the snapshot's row as `LevelUp` computes it. */
  method Grant(db: Database, writeBack: Handle, p: Pointling, source: string, amount: int, today: int, now: int,
               faults: Faults) returns (fnErr: Option<Error>, resp: AddXPResponse)
    requires db.Valid() && db.txOpen && db.live == db.committed && db.locks == {}
    requires p.id in db.committed.pointlings && db.committed.pointlings[p.id] == p
    modifies db`committed, db`live, db`locks, db`nextEventId
    ensures db.Valid() && db.txOpen
    ensures db.committed == old(db.committed)
    ensures DailyXPSum in faults ==> fnErr.Some? && fnErr != Some(DailyXPLimitReached) && fnErr != Some(Stalled)
    ensures fnErr == Some(DailyXPLimitReached) <==>
              DailyXPSum !in faults && !WithinCap(old(db.committed), p.id, source, amount, today)
    ensures fnErr == Some(DailyXPLimitReached) ==> db.live == old(db.live)
    ensures fnErr == Some(Stalled) <==>
              writeBack == Direct && GrantRuns(faults) && WithinCap(old(db.committed), p.id, source, amount, today) &&
              FirstWriteBack(p, amount) !in faults
    ensures fnErr.None? <==>
              writeBack == InTx && GrantRuns(faults) && WithinCap(old(db.committed), p.id, source, amount, today) &&
              WriteBackRuns(p, amount, faults)
    ensures fnErr.None? ==>
              var event := XPEvent(old(db.nextEventId), p.id, source, amount, today, now);
              resp == Response(p, amount, event) &&
              db.live == old(db.committed).(
                xpEvents := old(db.committed.xpEvents) + [event],
                pointlings := old(db.committed.pointlings)[p.id := LevelUp(p, amount)])
  {
    resp := Response(p, amount, XPEvent(0, p.id, source, amount, today, now));
    var granted := XPRepo.AddXP(db, InTx, p.id, source, amount, today, now, faults);
    if granted.Err? {
      fnErr := if granted.error == DailyXPLimitReached then Some(granted.error) else Some(Wrapped("add xp", granted.error));
      return;
    }
    resp := Response(p, amount, granted.value);
    fnErr := WriteBack(db, writeBack, p, amount, faults);
  }

  /** The level-up decision on the snapshot `p` and its write-back through
      `writeBack`, once the transaction has raised the row's XP by `amount`. */
  method WriteBack(db: Database, writeBack: Handle, p: Pointling, amount: int, faults: Faults) returns (fnErr: Option<Error>)
    requires db.Valid() && db.txOpen && PointlingRow(p.id) in db.locks
    requires p.id in db.committed.pointlings && p.id in db.live.pointlings
    requires db.live.pointlings[p.id] == p.(currentXP := p.currentXP + amount)
    modifies db`committed, db`live, db`locks
    ensures db.Valid() && db.txOpen
    ensures db.committed == old(db.committed)
    ensures fnErr != Some(DailyXPLimitReached)
    ensures fnErr == Some(Stalled) <==> writeBack == Direct && FirstWriteBack(p, amount) !in faults
    ensures fnErr.None? <==> writeBack == InTx && WriteBackRuns(p, amount, faults)
    ensures fnErr.None? ==> db.live == old(db.live).(pointlings := old(db.live.pointlings)[p.id := LevelUp(p, amount)])
  {
    var newTotal := p.currentXP + amount;
    if newTotal >= p.requiredXP {
      fnErr := Promote(db, writeBack, p, amount, faults);
      return;
    }
    assert PointlingRow(p.id) in Touches(db.committed, SetXP(p.id, newTotal, p.requiredXP)) * db.locks;
    var e := PointlingRepo.UpdateXP(db, writeBack, p.id, newTotal, p.requiredXP, faults);
    if e == Some(Stalled) {
      return Some(Stalled);
    }
    fnErr := if e.Some? then Some(Wrapped("update xp", e.value)) else None;
  }

  /** The level-up branch of the write-back: the level first, then the XP
      total and the requirement of the next level. */
  method Promote(db: Database, writeBack: Handle, p: Pointling, amount: int, faults: Faults) returns (fnErr: Option<Error>)
    requires db.Valid() && db.txOpen && PointlingRow(p.id) in db.locks
    requires p.id in db.committed.pointlings && p.id in db.live.pointlings
    requires db.live.pointlings[p.id] == p.(currentXP := p.currentXP + amount)
    requires p.currentXP + amount >= p.requiredXP
    modifies db`committed, db`live, db`locks
    ensures db.Valid() && db.txOpen
    ensures db.committed == old(db.committed)
    ensures fnErr != Some(DailyXPLimitReached)
    ensures fnErr == Some(Stalled) <==> writeBack == Direct && UpdatePointlingLevel !in faults
    ensures fnErr.None? <==> writeBack == InTx && UpdatePointlingLevel !in faults && UpdatePointlingXP !in faults
    ensures fnErr.None? ==> db.live == old(db.live).(pointlings := old(db.live.pointlings)[p.id := LevelUp(p, amount)])
  {
    ghost var live0 := db.live;
    var newTotal := p.currentXP + amount;
    var newRequired := CalculateNextLevelXP(p.level + 1);
    assert PointlingRow(p.id) in Touches(db.committed, SetLevel(p.id, p.level + 1)) * db.locks;
    var e := PointlingRepo.UpdateLevel(db, writeBack, p.id, p.level + 1, faults);
    if e == Some(Stalled) {
      return Some(Stalled);
    }
    if e.Some? {
      return Some(Wrapped("update level", e.value));
    }
    e := PointlingRepo.UpdateXP(db, writeBack, p.id, newTotal, newRequired, faults);
    if e.None? {
      assert db.live.pointlings == live0.pointlings[p.id := LevelUp(p, amount)];
    }
    fnErr := if e.Some? then Some(Wrapped("update xp", e.value)) else None;
  }

  /** `addXP` as written: validation, the pointling snapshot read through the
      pool, then the transaction. Its write-back through the pool waits for the
      transaction's own row lock, so no grant ever gets its answer: the request
      either fails with nothing committed or never answers. */
  method AddXP(db: Database, pointlingId: int, source: string, amount: int, today: int, now: int, faults: Faults)
    returns (reply: Reply<AddXPResponse>)
    requires db.Valid() && !db.txOpen
    modifies db`committed, db`live, db`locks, db`txOpen, db`nextEventId
    ensures db.Valid()
    ensures !ValidateSource(source) ==> reply == Refusal(StatusBadRequest, "Invalid XP source")
    ensures ValidateSource(source) && !Admissible(source, amount) ==>
              reply == Refusal(StatusBadRequest, "Invalid XP amount, max is " + Decimal(GetXPPerAction(source)))
    ensures Admissible(source, amount) && SelectPointling in faults ==>
              reply == Refusal(StatusInternalServerError, "Failed to get pointling")
    ensures Admissible(source, amount) && SelectPointling !in faults && pointlingId !in old(db.committed.pointlings) ==>
              reply == Refusal(StatusNotFound, "Pointling not found")
    ensures !reply.Answer?
    ensures reply.NoAnswer? <==>
              Admissible(source, amount) && SelectPointling !in faults && pointlingId in old(db.committed.pointlings) &&
              BeginTx !in faults && GrantRuns(faults) &&
              WithinCap(old(db.committed), pointlingId, source, amount, today) &&
              FirstWriteBack(old(db.committed.pointlings[pointlingId]), amount) !in faults
    ensures reply == Refusal(StatusTooManyRequests, "Daily XP limit reached for this source") <==>
              Admissible(source, amount) && SelectPointling !in faults && pointlingId in old(db.committed.pointlings) &&
              BeginTx !in faults && DailyXPSum !in faults && RollbackTx !in faults &&
              !WithinCap(old(db.committed), pointlingId, source, amount, today)
    ensures reply == Refusal(StatusInternalServerError, "Failed to process XP gain") <==>
              Admissible(source, amount) && SelectPointling !in faults && pointlingId in old(db.committed.pointlings) &&
              !(BeginTx !in faults && GrantRuns(faults) &&
                WithinCap(old(db.committed), pointlingId, source, amount, today) &&
                FirstWriteBack(old(db.committed.pointlings[pointlingId]), amount) !in faults) &&
              !(BeginTx !in faults && DailyXPSum !in faults && RollbackTx !in faults &&
                !WithinCap(old(db.committed), pointlingId, source, amount, today))
    ensures reply.Refusal? ==> !db.txOpen
    ensures db.committed == old(db.committed)
  {
    if !ValidateSource(source) {
      return Refusal(StatusBadRequest, "Invalid XP source");
    }
    if amount <= 0 || amount > GetXPPerAction(source) {
      return Refusal(StatusBadRequest, "Invalid XP amount, max is " + Decimal(GetXPPerAction(source)));
    }
    var found := PointlingRepo.GetByID(db.committed, pointlingId, faults);
    if found.Err? {
      return Refusal(StatusInternalServerError, "Failed to get pointling");
    }
    if found.value.None? {
      return Refusal(StatusNotFound, "Pointling not found");
    }
    var p := found.value.value;
    var err := db.Begin(faults);
    if err.None? {
      var fnErr, _ := Grant(db, Direct, p, source, amount, today, now, faults);
      if fnErr == Some(Stalled) {
        return NoAnswer;
      }
      err := db.Finish(fnErr, faults);
    }
    if err == Some(DailyXPLimitReached) {
      return Refusal(StatusTooManyRequests, "Daily XP limit reached for this source");
    }
    return Refusal(StatusInternalServerError, "Failed to process XP gain");
  }

  /** `addXP` with the write-back sent through the transaction: the grant
      either answers 200 with the event, the XP and the level-up committed
      together, or fails with nothing committed. */
  method AddXPAtomic(db: Database, pointlingId: int, source: string, amount: int, today: int, now: int, faults: Faults)
    returns (reply: Reply<AddXPResponse>)
    requires db.Valid() && !db.txOpen
    modifies db`committed, db`live, db`locks, db`txOpen, db`nextEventId
    ensures db.Valid() && !db.txOpen && !reply.NoAnswer?
    ensures !ValidateSource(source) ==> reply == Refusal(StatusBadRequest, "Invalid XP source")
    ensures ValidateSource(source) && !Admissible(source, amount) ==>
              reply == Refusal(StatusBadRequest, "Invalid XP amount, max is " + Decimal(GetXPPerAction(source)))
    ensures Admissible(source, amount) && SelectPointling in faults ==>
              reply == Refusal(StatusInternalServerError, "Failed to get pointling")
    ensures Admissible(source, amount) && SelectPointling !in faults && pointlingId !in old(db.committed.pointlings) ==>
              reply == Refusal(StatusNotFound, "Pointling not found")
    ensures reply == Refusal(StatusTooManyRequests, "Daily XP limit reached for this source") <==>
              Admissible(source, amount) && SelectPointling !in faults && pointlingId in old(db.committed.pointlings) &&
              BeginTx !in faults && DailyXPSum !in faults && RollbackTx !in faults &&
              !WithinCap(old(db.committed), pointlingId, source, amount, today)
    ensures reply.Answer? <==>
              Admissible(source, amount) && SelectPointling !in faults && pointlingId in old(db.committed.pointlings) &&
              BeginTx !in faults && GrantRuns(faults) && WithinCap(old(db.committed), pointlingId, source, amount, today) &&
              WriteBackRuns(old(db.committed.pointlings[pointlingId]), amount, faults) && CommitTx !in faults
    ensures reply.Answer? ==>
              var p := old(db.committed.pointlings[pointlingId]);
              var event := XPEvent(old(db.nextEventId), pointlingId, source, amount, today, now);
              reply == Answer(StatusOK, Response(p, amount, event)) &&
              db.committed == old(db.committed).(
                xpEvents := old(db.committed.xpEvents) + [event],
                pointlings := old(db.committed.pointlings)[pointlingId := LevelUp(p, amount)])
    ensures !reply.Answer? ==> db.committed == old(db.committed)
    ensures XPRepo.WithinDailyCaps(old(db.committed.xpEvents)) ==> XPRepo.WithinDailyCaps(db.committed.xpEvents)
  {
    if !ValidateSource(source) {
      return Refusal(StatusBadRequest, "Invalid XP source");
    }
    if amount <= 0 || amount > GetXPPerAction(source) {
      return Refusal(StatusBadRequest, "Invalid XP amount, max is " + Decimal(GetXPPerAction(source)));
    }
    var found := PointlingRepo.GetByID(db.committed, pointlingId, faults);
    if found.Err? {
      return Refusal(StatusInternalServerError, "Failed to get pointling");
    }
    if found.value.None? {
      return Refusal(StatusNotFound, "Pointling not found");
    }
    var p := found.value.value;
    ghost var before := db.committed;
    ghost var eventId := db.nextEventId;
    var err, resp := GrantInTx(db, p, source, amount, today, now, faults);
    if err == Some(DailyXPLimitReached) {
      return Refusal(StatusTooManyRequests, "Daily XP limit reached for this source");
    }
    if err.Some? {
      return Refusal(StatusInternalServerError, "Failed to process XP gain");
    }
    var event := XPEvent(eventId, pointlingId, source, amount, today, now);
    if XPRepo.WithinDailyCaps(before.xpEvents) {
      XPRepo.AppendWithinCaps(before.xpEvents, event);
    }
    return Answer(StatusOK, resp);
  }

  /** `InTransaction` around the grant with the write-back inside the
      transaction: either all of it is committed or nothing is. */
  method GrantInTx(db: Database, p: Pointling, source: string, amount: int, today: int, now: int, faults: Faults)
    returns (err: Option<Error>, resp: AddXPResponse)
    requires db.Valid() && !db.txOpen
    requires p.id in db.committed.pointlings && db.committed.pointlings[p.id] == p
    modifies db`committed, db`live, db`locks, db`txOpen, db`nextEventId
    ensures db.Valid() && !db.txOpen
    ensures err == Some(DailyXPLimitReached) <==>
              BeginTx !in faults && DailyXPSum !in faults && RollbackTx !in faults &&
              !WithinCap(old(db.committed), p.id, source, amount, today)
    ensures err.None? <==>
              BeginTx !in faults && GrantRuns(faults) && WithinCap(old(db.committed), p.id, source, amount, today) &&
              WriteBackRuns(p, amount, faults) && CommitTx !in faults
    ensures err.None? ==>
              var event := XPEvent(old(db.nextEventId), p.id, source, amount, today, now);
              resp == Response(p, amount, event) &&
              db.committed == old(db.committed).(
                xpEvents := old(db.committed.xpEvents) + [event],
                pointlings := old(db.committed.pointlings)[p.id := LevelUp(p, amount)])
    ensures err.Some? ==> db.committed == old(db.committed)
  {
    resp := Response(p, amount, XPEvent(0, p.id, source, amount, today, now));
    err := db.Begin(faults);
    if err.None? {
      var fnErr;
      fnErr, resp := Grant(db, InTx, p, source, amount, today, now, faults);
      err := db.Finish(fnErr, faults);
    }
  }

  /** `getXPHistory`: the pointling's newest events, at most the clamped limit. */
  method GetXPHistory(db: Database, pointlingId: int, requestedLimit: Option<int>, faults: Faults)
    returns (reply: Reply<seq<XPEvent>>)
    requires db.Valid()
    ensures reply.NoAnswer? == false
    ensures reply.Refusal? <==> EventsQuery in faults
    ensures reply.Refusal? ==> reply == Refusal(StatusInternalServerError, "Failed to get XP history")
    ensures reply.Answer? ==>
              reply.status == StatusOK &&
              reply.body == Page(XPRepo.NewestFirst(db.committed.xpEvents, pointlingId), PageLimit(requestedLimit), 0)
    ensures reply.Answer? ==>
              |reply.body| <= MaxLimit && forall e :: e in reply.body ==> e in db.committed.xpEvents && e.pointlingId == pointlingId
  {
    var limit := PageLimit(requestedLimit);
    var events := XPRepo.GetEventsByPointling(db.committed, pointlingId, limit, faults);
    if events.Err? {
      return Refusal(StatusInternalServerError, "Failed to get XP history");
    }
    XPRepo.NewestFirstBelongs(db.committed.xpEvents, pointlingId);
    return Answer(StatusOK, events.value);
  }
}
