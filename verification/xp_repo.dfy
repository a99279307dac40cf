/** The XP repository (internal/repository/postgres/xp_event.go): the daily-capped
    XP grant over the `xp_events` log and the pointlings table. Each statement
    goes through the repository's handle: the transaction inside
    `InTransaction`, the pool otherwise. `CURRENT_DATE` is the parameter `today`
    and the database clock the parameter `now`. */
module XPRepo {
  import opened Entities
  import opened Seqs
  import opened Store
  import opened XPSource

  /** Whether an event counts towards the (pointling, source, day) total. */
  predicate Counts(e: XPEvent, pointlingId: int, source: string, day: int)
  {
    e.pointlingId == pointlingId && e.source == source && e.day == day
  }

  /** Total XP of the log's events for one pointling, source and day. */
  function DailyXP(log: seq<XPEvent>, pointlingId: int, source: string, day: int): int
  {
    if log == [] then 0
    else
      var last := log[|log| - 1];
      DailyXP(log[..|log| - 1], pointlingId, source, day) + (if Counts(last, pointlingId, source, day) then last.amount else 0)
  }

  /** Appending an event adds its amount to its own total and to no other. */
  lemma DailyXPAppend(log: seq<XPEvent>, e: XPEvent, pointlingId: int, source: string, day: int)
    ensures DailyXP(log + [e], pointlingId, source, day) ==
            DailyXP(log, pointlingId, source, day) + (if Counts(e, pointlingId, source, day) then e.amount else 0)
  {
    assert (log + [e])[..|log|] == log;
  }

  /** Every (pointling, source, day) total is within the source's daily cap. */
  ghost predicate WithinDailyCaps(log: seq<XPEvent>)
  {
    forall pointlingId, source, day :: DailyXP(log, pointlingId, source, day) <= GetMaxDailyXP(source)
  }

  lemma EmptyLogWithinCaps()
    ensures WithinDailyCaps([])
  {
  }

  /** An event that keeps its own total within the cap keeps every total within it. */
  lemma AppendWithinCaps(log: seq<XPEvent>, e: XPEvent)
    requires WithinDailyCaps(log)
    requires DailyXP(log, e.pointlingId, e.source, e.day) + e.amount <= GetMaxDailyXP(e.source)
    ensures WithinDailyCaps(log + [e])
  {
    forall pointlingId, source, day
      ensures DailyXP(log + [e], pointlingId, source, day) <= GetMaxDailyXP(source)
    {
      DailyXPAppend(log, e, pointlingId, source, day);
    }
  }

  /** `GetDailyXPBySource`: today's total for the pointling and source, 0 when
      there is no such event (`COALESCE(SUM(xp_amount), 0)`). */
  function GetDailyXPBySource(t: Tables, pointlingId: int, source: string, today: int, faults: Faults): (r: Result<int>)
    ensures r.Err? <==> DailyXPSum in faults
    ensures r.Ok? ==> r.value == DailyXP(t.xpEvents, pointlingId, source, today)
  {
    if DailyXPSum in faults then Err(Wrapped("get daily xp", Driver(faults[DailyXPSum])))
    else Ok(DailyXP(t.xpEvents, pointlingId, source, today))
  }

  lemma NoEventsNoXP(log: seq<XPEvent>, pointlingId: int, source: string, day: int)
    requires forall k :: 0 <= k < |log| ==> !Counts(log[k], pointlingId, source, day)
    ensures DailyXP(log, pointlingId, source, day) == 0
  {
    if log != [] {
      NoEventsNoXP(log[..|log| - 1], pointlingId, source, day);
    }
  }

  /** The INSERT into `xp_events`, which claims no lock another statement waits for. */
  method InsertEvent(db: Database, h: Handle, event: XPEvent, faults: Faults) returns (err: Option<Error>)
    requires db.Valid() && (h == InTx ==> db.txOpen)
    modifies db`committed, db`live, db`locks
    ensures db.Valid() && db.locks == old(db.locks)
    ensures err == if InsertXPEvent in faults then Some(Wrapped("insert xp event", Driver(faults[InsertXPEvent]))) else None
    ensures err.Some? ==> db.committed == old(db.committed) && db.live == old(db.live)
    ensures err.None? ==> db.View(h) == old(db.View(h)).(xpEvents := old(db.View(h).xpEvents) + [event])
    ensures db.committed.pointlings == old(db.committed.pointlings) && db.live.pointlings == old(db.live.pointlings)
    ensures h == InTx ==> db.committed == old(db.committed)
  {
    if InsertXPEvent in faults {
      return Some(Wrapped("insert xp event", Driver(faults[InsertXPEvent])));
    }
    err := db.Exec(h, AppendEvent(event), InsertXPEvent, faults);
  }

  /** `current_xp = current_xp + amount ... RETURNING current_xp`, which reports
      `ErrNoRows` when the pointling is missing. */
  method RaiseXP(db: Database, h: Handle, pointlingId: int, amount: int, faults: Faults) returns (err: Option<Error>)
    requires db.Valid() && (h == InTx ==> db.txOpen)
    modifies db`committed, db`live, db`locks
    ensures db.Valid()
    ensures err.None? <==>
              IncrementXP !in faults && !old(db.Blocks(h, BumpXP(pointlingId, amount))) && pointlingId in old(db.View(h).pointlings)
    ensures err.Some? ==> err.value.Wrapped?
    ensures IncrementXP in faults ==>
              err == Some(Wrapped("update pointling xp", Driver(faults[IncrementXP]))) &&
              db.committed == old(db.committed) && db.live == old(db.live)
    ensures err.None? ==> db.View(h) == old(db.View(h)).(pointlings := old(db.View(h).pointlings)[pointlingId :=
              old(db.View(h).pointlings)[pointlingId].(currentXP := old(db.View(h).pointlings)[pointlingId].currentXP + amount)])
    ensures h == InTx ==> db.committed == old(db.committed)
    ensures h == InTx && err.None? ==> db.locks == old(db.locks) + {PointlingRow(pointlingId)}
  {
    var missing := pointlingId !in db.View(h).pointlings;
    err := db.Exec(h, BumpXP(pointlingId, amount), IncrementXP, faults);
    if err.Some? {
      return Some(Wrapped("update pointling xp", err.value));
    }
    if missing {
      return Some(Wrapped("update pointling xp", NoRows));
    }
  }

  /** The statements of a grant that passed the cap check: append the event,
      then raise the pointling's XP. */
  method Grant(db: Database, h: Handle, event: XPEvent, faults: Faults) returns (err: Option<Error>)
    requires db.Valid() && (h == InTx ==> db.txOpen)
    modifies db`committed, db`live, db`locks
    ensures db.Valid()
    ensures err.None? <==>
              InsertXPEvent !in faults && IncrementXP !in faults &&
              !old(db.Blocks(h, BumpXP(event.pointlingId, event.amount))) && event.pointlingId in old(db.View(h).pointlings)
    ensures err.Some? ==> err.value.Wrapped?
    ensures InsertXPEvent in faults ==>
              err == Some(Wrapped("insert xp event", Driver(faults[InsertXPEvent]))) &&
              db.committed == old(db.committed) && db.live == old(db.live)
    ensures InsertXPEvent !in faults && IncrementXP in faults ==>
              err == Some(Wrapped("update pointling xp", Driver(faults[IncrementXP]))) &&
              db.View(h) == old(db.View(h)).(xpEvents := old(db.View(h).xpEvents) + [event])
    ensures err.None? ==> db.View(h) == old(db.View(h)).(
              xpEvents := old(db.View(h).xpEvents) + [event],
              pointlings := old(db.View(h).pointlings)[event.pointlingId :=
                old(db.View(h).pointlings)[event.pointlingId].(currentXP := old(db.View(h).pointlings)[event.pointlingId].currentXP + event.amount)])
    ensures h == InTx ==> db.committed == old(db.committed)
    ensures h == InTx && err.None? ==> db.locks == old(db.locks) + {PointlingRow(event.pointlingId)}
  {
    err := InsertEvent(db, h, event, faults);
    if err.Some? {
      return;
    }
    err := RaiseXP(db, h, event.pointlingId, event.amount, faults);
  }

  /** `AddXP`: refuses with `ErrDailyXPLimitReached` exactly when today's total
      plus the amount exceeds the source's daily cap (reaching it is allowed);
      otherwise appends one event, stamped with a fresh id, `now` and `today`, and
      raises the pointling's `current_xp` by the amount. A refusal writes nothing.
      A failure of the increment leaves the appended event in place; only a
      surrounding transaction's rollback removes it. */
  method AddXP(db: Database, h: Handle, pointlingId: int, source: string, amount: int,
               today: int, now: int, faults: Faults) returns (r: Result<XPEvent>)
    requires db.Valid() && (h == InTx ==> db.txOpen)
    modifies db`committed, db`live, db`locks, db`nextEventId
    ensures db.Valid()
    ensures DailyXPSum in faults ==>
              r == Err(Wrapped("check daily xp", Wrapped("get daily xp", Driver(faults[DailyXPSum]))))
    ensures r == Err(DailyXPLimitReached) <==>
              DailyXPSum !in faults &&
              DailyXP(old(db.View(h).xpEvents), pointlingId, source, today) + amount > GetMaxDailyXP(source)
    ensures r.Err? && (r.error.DailyXPLimitReached? || DailyXPSum in faults || InsertXPEvent in faults) ==>
              db.committed == old(db.committed) && db.live == old(db.live)
    ensures r.Ok? <==>
              DailyXPSum !in faults && InsertXPEvent !in faults && IncrementXP !in faults &&
              DailyXP(old(db.View(h).xpEvents), pointlingId, source, today) + amount <= GetMaxDailyXP(source) &&
              !old(db.Blocks(h, BumpXP(pointlingId, amount))) && pointlingId in old(db.View(h).pointlings)
    ensures r.Ok? ==> r.value == XPEvent(old(db.nextEventId), pointlingId, source, amount, today, now)
    ensures r.Ok? ==> db.View(h) == old(db.View(h)).(
              xpEvents := old(db.View(h).xpEvents) + [r.value],
              pointlings := old(db.View(h).pointlings)[pointlingId :=
                old(db.View(h).pointlings)[pointlingId].(currentXP := old(db.View(h).pointlings)[pointlingId].currentXP + amount)])
    ensures r.Ok? ==> DailyXP(db.View(h).xpEvents, pointlingId, source, today) <= GetMaxDailyXP(source)
    ensures DailyXPSum !in faults && InsertXPEvent !in faults && IncrementXP in faults &&
            DailyXP(old(db.View(h).xpEvents), pointlingId, source, today) + amount <= GetMaxDailyXP(source) ==>
              r == Err(Wrapped("update pointling xp", Driver(faults[IncrementXP]))) &&
              db.View(h) == old(db.View(h)).(xpEvents := old(db.View(h).xpEvents) + [XPEvent(old(db.nextEventId), pointlingId, source, amount, today, now)])
    ensures h == InTx ==> db.committed == old(db.committed)
    ensures h == InTx && r.Ok? ==> db.locks == old(db.locks) + {PointlingRow(pointlingId)}
  {
    var daily := GetDailyXPBySource(db.View(h), pointlingId, source, today, faults);
    if daily.Err? {
      return Err(Wrapped("check daily xp", daily.error));
    }
    if daily.value + amount > GetMaxDailyXP(source) {
      return Err(DailyXPLimitReached);
    }
    var id := db.DrawEventId();
    var event := XPEvent(id, pointlingId, source, amount, today, now);
    ghost var before := db.View(h).xpEvents;
    var err := Grant(db, h, event, faults);
    if err.Some? {
      return Err(err.value);
    }
    DailyXPAppend(before, event, pointlingId, source, today);
    return Ok(event);
  }

  /** The pointling's events, newest first (the log is in `event_ts` order). */
  function NewestFirst(log: seq<XPEvent>, pointlingId: int): seq<XPEvent>
  {
    if log == [] then []
    else
      var last := log[|log| - 1];
      (if last.pointlingId == pointlingId then [last] else []) + NewestFirst(log[..|log| - 1], pointlingId)
  }

  /** Every listed event belongs to the pointling and comes from the log. */
  lemma {:induction false} NewestFirstBelongs(log: seq<XPEvent>, pointlingId: int)
    ensures |NewestFirst(log, pointlingId)| <= |log|
    ensures forall e :: e in NewestFirst(log, pointlingId) ==> e.pointlingId == pointlingId && e in log
  {
    if log != [] {
      NewestFirstBelongs(log[..|log| - 1], pointlingId);
    }
  }

  /** The pointling's events in insertion order. */
  function Filter(log: seq<XPEvent>, pointlingId: int): seq<XPEvent>
  {
    if log == [] then []
    else (if log[0].pointlingId == pointlingId then [log[0]] else []) + Filter(log[1..], pointlingId)
  }

  lemma FilterAppend(log: seq<XPEvent>, e: XPEvent, pointlingId: int)
    ensures Filter(log + [e], pointlingId) == Filter(log, pointlingId) + (if e.pointlingId == pointlingId then [e] else [])
  {
    if log != [] {
      assert (log + [e])[1..] == log[1..] + [e];
      FilterAppend(log[1..], e, pointlingId);
    }
  }

  /** Newest first is exactly the reverse of the pointling's events in insertion order. */
  lemma {:induction false} NewestFirstIsReversedFilter(log: seq<XPEvent>, pointlingId: int)
    ensures NewestFirst(log, pointlingId) == Reverse(Filter(log, pointlingId))
  {
    if log != [] {
      var init, last := log[..|log| - 1], log[|log| - 1];
      assert log == init + [last];
      NewestFirstIsReversedFilter(init, pointlingId);
      FilterAppend(init, last, pointlingId);
      var f := Filter(init, pointlingId);
      var tail := if last.pointlingId == pointlingId then [last] else [];
      ReverseAppend(f, tail);
    }
  }

  lemma ReverseAppend<T>(a: seq<T>, b: seq<T>)
    ensures Reverse(a + b) == Reverse(b) + Reverse(a)
  {
    var l, r := Reverse(a + b), Reverse(b) + Reverse(a);
    assert |l| == |r|;
    forall i | 0 <= i < |l|
      ensures l[i] == r[i]
    {
      if i < |b| {
        assert l[i] == (a + b)[|a| + |b| - 1 - i];
      }
    }
  }

  lemma NewestFirstStep(log: seq<XPEvent>, i: int, pointlingId: int)
    requires 0 < i <= |log|
    ensures NewestFirst(log[..i], pointlingId) ==
            (if log[i - 1].pointlingId == pointlingId then [log[i - 1]] else []) + NewestFirst(log[..i - 1], pointlingId)
  {
    assert log[..i][..i - 1] == log[..i - 1];
  }

  /** `GetEventsByPointling`: at most `limit` of the pointling's events, newest
      first. The loop walks the log backwards and stops once `limit` rows are
      collected. PostgreSQL refuses a negative LIMIT. */
  method GetEventsByPointling(t: Tables, pointlingId: int, limit: int, faults: Faults) returns (r: Result<seq<XPEvent>>)
    ensures r.Err? <==> EventsQuery in faults || limit < 0
    ensures r.Ok? ==> r.value == Page(NewestFirst(t.xpEvents, pointlingId), limit, 0)
  {
    if EventsQuery in faults {
      return Err(Wrapped("query xp events", Driver(faults[EventsQuery])));
    }
    if limit < 0 {
      return Err(Wrapped("query xp events", Driver("LIMIT must not be negative")));
    }
    var log := t.xpEvents;
    var rows: seq<XPEvent> := [];
    var i := |log|;
    assert log[..i] == log;
    while i > 0 && |rows| < limit
      invariant 0 <= i <= |log| && |rows| <= limit
      invariant NewestFirst(log, pointlingId) == rows + NewestFirst(log[..i], pointlingId)
    {
      var row := if log[i - 1].pointlingId == pointlingId then [log[i - 1]] else [];
      NewestFirstStep(log, i, pointlingId);
      assert rows + NewestFirst(log[..i], pointlingId) == (rows + row) + NewestFirst(log[..i - 1], pointlingId);
      rows := rows + row;
      i := i - 1;
    }
    if i == 0 {
      assert log[..0] == [];
    }
    PageOfPrefix(NewestFirst(log, pointlingId), rows, NewestFirst(log[..i], pointlingId), limit);
    return Ok(rows);
  }
}
