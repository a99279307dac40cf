# Pointlings game economy — a Dafny model

A model of the backend of the Pointlings game (`my-pointlings-be`). Users hold
point balances. Pointlings gain XP from capped daily sources and level up along
a fixed curve. Points buy catalog items, and pointlings equip the items they own,
one per slot. Every change goes through a PostgreSQL store, partly inside
transactions.

The model keeps the store as one `Store.Database` object with two views of the
tables: `committed`, what every pooled connection sees, and `live`, what the
request's open transaction sees.
- A statement sent through the transaction changes `live` and locks the rows it changes.
- A statement sent through the pool autocommits: it changes both views.
- Commit publishes `live`; rollback discards it.
- A pooled statement that needs a row the request's own transaction has locked
  waits for ever. The model ends the request there with the `Stalled` outcome.
- Serial ids (pointlings, items, events, spends) come from counters outside the
  views, because PostgreSQL sequences are not rolled back.

Any storage statement can fail. Each operation takes a `faults` map from
statement to driver message, so every error path of the source is reachable
and each contract says what happens on it. The database clock (`now`) and
`CURRENT_DATE` (`today`) are parameters.

Modules follow the source:
- `XPSource`, `LevelCurve`: the models (`internal/models`).
- `UserRepo`, `PointlingRepo`, `ItemRepo`, `XPRepo`, `SpendRepo`, `InventoryRepo`: the PostgreSQL repositories.
- `DraftQuery`: the query builder of the consolidated draft repository.
- `UserHandler`, `XPHandler`, `PointHandler`, `ItemHandler`: the HTTP handlers. They take already-parsed inputs and return a status and a body (`Http.Reply`).

The draft repository `pointling_repo/pointling_repository.go` repeats the postgres
repositories' `AddXP`, `SpendPoints`, `AddItem`, `ToggleEquipped`,
`UpdatePointBalance` and `InTransaction` statement for statement (lines
432-475, 760-789, 531-551, 635-677, 378-397 and 114-133 of that file). One member models
both copies, and its row below cites the postgres repository.

## Model

| member | source | states |
|---|---|---|
| XPSource.GetMaxDailyXP | internal/models/xp_event.go:59-70 | the daily cap is positive exactly for a valid source and 0 otherwise |
| XPSource.GetXPPerAction | internal/models/xp_event.go:72-83 | the per-request cap is positive exactly for a valid source and never exceeds the daily cap |
| XPSource.CapTable | internal/models/xp_event.go:50-83 | RECEIPT 10/50, PLAY 20/100 and DAILY 10/10 are valid; any other text is invalid, with both caps 0 |
| XPSource.InvalidSourceAdmitsNothing | internal/models/xp_event.go:59-83 | for an invalid source, every positive amount exceeds both caps |
| LevelCurve.CalculateNextLevelXP | internal/models/pointling.go:43-53 | the requirement is 3·level below level 40 and 120 from level 40 on, never above 120 |
| LevelCurve.NextLevelXPMonotone | internal/models/pointling.go:48-52 | the requirement never decreases as the level grows |
| LevelCurve.NextLevelXPFirstSteps | internal/models/pointling.go:43-53 | levels 1 and 2 need 3 and 6 XP; every level from 1 on needs at least 3 |
| LevelCurve.NewPointling | internal/models/pointling.go:32-41 | a new pointling has the given user and nickname, level 1, no XP, an empty look and the level-1 requirement, 3 |
| Store.TxOutcome | internal/repository/postgres/xp_event.go:32-55 | the transaction succeeds exactly when the body and the commit do; a body error comes back unchanged after a good rollback and inside the rollback-failed error otherwise |
| Store.Database.Begin | internal/repository/postgres/point_spend.go:31-35 | a transaction is open exactly when BeginTx succeeds; a failure is "begin transaction: <cause>" |
| Store.Database.Finish | internal/repository/postgres/point_spend.go:39-49 | after the wrapper, `committed` is the transaction's view on success and the old tables on any failure |
| Store.Database.Exec | internal/repository/postgres/xp_event.go:21-25 | a statement goes through the transaction or the pool; it fails with the driver's message, waits on its own transaction's lock, or applies the write to that handle's view |
| Store.Unequip | internal/repository/postgres/pointling_item.go:164-175 | the unequip statement keeps every inventory edge; it only clears flags |
| UserRepo.GetUser | internal/repository/postgres/user.go:18-38 | the stored user, or no user and no error when the id is unknown |
| UserRepo.CreateUser | internal/repository/postgres/user.go:40-54 | stores id, name and balance, stamped now and listed last, and changes no other table; an existing id is a duplicate-key error that changes nothing |
| UserRepo.UpdatePointBalance | internal/repository/postgres/user.go:56-75 | sets only that user's balance; a missing user is "user not found" and nothing changes |
| UserRepo.ListUsers | internal/repository/postgres/user.go:77-108 | the users newest first, skipping `offset` and keeping at most `limit`, with the exact page length; a negative window is an error |
| UserRepo.ListedUsersDistinct | internal/repository/postgres/user.go:77-108 | a listed page holds distinct stored users |
| PointlingRepo.Create | internal/repository/postgres/pointling.go:19-47 | stores the given fields under a fresh id and returns them with that id and the creation time |
| PointlingRepo.GetByID | internal/repository/postgres/pointling.go:49-82 | the stored pointling, or no pointling and no error when the id is unknown |
| PointlingRepo.GetByUserID | internal/repository/postgres/pointling.go:84-129 | exactly the user's stored pointlings, each once, newest (highest id) first |
| PointlingRepo.UpdateXP | internal/repository/postgres/pointling.go:158-178 | sets only current and required XP of that pointling; an unknown id is "pointling not found" |
| PointlingRepo.UpdateLevel | internal/repository/postgres/pointling.go:180-200 | sets only the level of that pointling; an unknown id is "pointling not found" |
| PointlingRepo.UpdateNickname | internal/repository/postgres/pointling.go:202-222 | sets or clears only the nickname of that pointling; an unknown id is "pointling not found" |
| ItemRepo.GetByID | internal/repository/postgres/item.go:18-42 | the catalog row, or no item and no error when the id is unknown |
| ItemRepo.List | internal/repository/postgres/item.go:44-81 | exactly the catalog items that pass every given filter |
| ItemRepo.ListFilters | internal/repository/postgres/item.go:44-51 | no filter returns the whole catalog; a slot filter never returns an item without a slot or of another slot |
| ItemRepo.GetUnlocksForLevel | internal/repository/postgres/item.go:83-118 | exactly the items whose unlock level equals the level; an item without one never appears |
| ItemRepo.Create | internal/repository/postgres/item.go:120-142 | stores the given fields under a fresh id and returns them with that id |
| XPRepo.DailyXPAppend | internal/repository/postgres/xp_event.go:138-154 | appending an event adds its amount to its own (pointling, source, day) total and to no other |
| XPRepo.EmptyLogWithinCaps | internal/repository/postgres/xp_event.go:59-66 | an empty log is within every daily cap |
| XPRepo.AppendWithinCaps | internal/repository/postgres/xp_event.go:59-66 | an event that passes the cap check keeps every daily total within its cap |
| XPRepo.GetDailyXPBySource | internal/repository/postgres/xp_event.go:138-154 | today's total of the pointling's events from that source |
| XPRepo.NoEventsNoXP | internal/repository/postgres/xp_event.go:138-154 | without a matching event the total is 0 |
| XPRepo.InsertEvent | internal/repository/postgres/xp_event.go:69-84 | appends the event to the handle's view and leaves the pointlings as they were |
| XPRepo.RaiseXP | internal/repository/postgres/xp_event.go:86-97 | raises only that pointling's XP by the amount; a missing pointling is an error; a failed increment changes nothing |
| XPRepo.Grant | internal/repository/postgres/xp_event.go:68-99 | on success one event is appended and that pointling's XP rises by the amount; when only the increment fails, the event stays appended |
| XPRepo.AddXP | internal/repository/postgres/xp_event.go:57-100 | refuses with the daily-limit error exactly when today's total plus the amount exceeds the cap, writing nothing; otherwise appends one event with a fresh id and raises only that pointling's XP by the amount; a failed increment returns its wrapped error and leaves the event appended |
| XPRepo.NewestFirstBelongs | internal/repository/postgres/xp_event.go:102-108 | every listed event is one of the pointling's events from the log |
| XPRepo.NewestFirstIsReversedFilter | internal/repository/postgres/xp_event.go:102-108 | newest first is the reverse of the pointling's events in insertion order |
| XPRepo.GetEventsByPointling | internal/repository/postgres/xp_event.go:102-136 | the first `limit` of the pointling's events, newest first; a negative limit is an error |
| SpendRepo.TotalSpentAppend | internal/repository/postgres/point_spend.go:119-131 | a new record adds its points to its own user's total only |
| SpendRepo.GetTotalSpentByUser | internal/repository/postgres/point_spend.go:119-131 | the user's lifetime spend, 0 without records |
| SpendRepo.Create | internal/repository/postgres/point_spend.go:52-70 | appends one record (user, item, points) with a fresh id and now |
| SpendRepo.Withdraw | internal/repository/postgres/point_spend.go:134-149 | the guarded debit: too small a balance or no user is the insufficient-balance error and changes nothing; otherwise the balance drops by exactly the points |
| SpendRepo.SpendPoints | internal/repository/postgres/point_spend.go:133-162 | insufficient balance changes nothing; success lowers the balance by exactly the points, keeps it non-negative and appends exactly one record |
| SpendRepo.SpendRowsBelong | internal/repository/postgres/point_spend.go:72-80 | every history row is one of the user's records joined with its own item |
| SpendRepo.GetByUser | internal/repository/postgres/point_spend.go:72-117 | the user's records with their items, newest first, in the limit/offset window |
| InventoryRepo.AddItem | internal/repository/postgres/pointling_item.go:57-77 | a new pair gains exactly one unequipped edge; an existing edge is the already-owned error and the inventory is unchanged |
| InventoryRepo.GetItems | internal/repository/postgres/pointling_item.go:79-123 | exactly the pointling's edges that have a catalog item, and only those with a matching flag when a filter is given |
| InventoryRepo.GetEquippedInSlot | internal/repository/postgres/pointling_item.go:125-159 | an equipped item of the pointling in that slot, or none exactly when no such item exists |
| InventoryRepo.EquippedInSlotUnique | internal/repository/postgres/pointling_item.go:125-159 | with one equipped item per slot, the equipped item of a slot is unique |
| InventoryRepo.ToggledTarget | internal/repository/postgres/pointling_item.go:161-203 | toggling keeps the edge set, gives an owned target the requested flag, and changes no other pointling's edge |
| InventoryRepo.ToggledOthers | internal/repository/postgres/pointling_item.go:164-175 | the unequip only clears the pointling's equipped items in the target's non-NULL slot; unequipping touches only the target |
| InventoryRepo.ToggledEquipsAlone | internal/repository/postgres/pointling_item.go:162-189 | after equipping an owned slotted item, it is the pointling's only equipped item in that slot |
| InventoryRepo.ToggledKeepsSlotExclusive | internal/repository/postgres/pointling_item.go:161-203 | toggling keeps at most one equipped item per pointling and slot |
| InventoryRepo.ClearSlot | internal/repository/postgres/pointling_item.go:162-180 | the unequip statement applies `Unequip` to the handle's view; a failure is "unequip current item: <cause>" |
| InventoryRepo.SetFlag | internal/repository/postgres/pointling_item.go:182-200 | sets the edge's flag; no such edge is "pointling does not own this item" |
| InventoryRepo.ToggleEquipped | internal/repository/postgres/pointling_item.go:161-203 | on success the view becomes `Toggled`; an unowned item is the not-owned error; any other error is a wrapped statement error or the stall |
| DraftQuery.Given | internal/repository/pointling_repo/pointling_repository.go:921-934 | one filter pair per given filter |
| DraftQuery.ConditionsConcat | internal/repository/pointling_repo/pointling_repository.go:921-934 | conditions of consecutive filter runs are the conditions of the whole run, numbered on |
| DraftQuery.ConditionsAt | internal/repository/pointling_repo/pointling_repository.go:921-934 | the i-th condition is bound to placeholder $(i+1): placeholders run consecutively in filter order |
| DraftQuery.Extend | internal/repository/pointling_repo/pointling_repository.go:921-934 | one appended filter keeps text and arguments equal to the rendering of the filters so far |
| DraftQuery.BuildListQuery | internal/repository/pointling_repo/pointling_repository.go:917-936 | the text is the base select, one `AND column = $i` clause per given filter in category, rarity, slot order with $i numbered by argument position, then the ordering by name; the arguments are the given values in that order, one per given filter |
| DraftQuery.ListItems | internal/repository/pointling_repo/pointling_repository.go:917-968 | the catalog items passing every given filter; the built text is not interpreted as SQL, the rows are those `ItemRepo.List` selects for the same filters |
| Http.PageLimit | internal/handlers/xp.go:153-158 | the limit is 50 unless a value in 1..100 is given, which is then used |
| Http.PageOffset | internal/handlers/points.go:128-132 | the offset is 0 unless a non-negative value is given, which is then used |
| XPHandler.LevelUpRule | internal/handlers/xp.go:106-129 | the new XP is snapshot plus amount (no reset); the level rises by exactly one iff it reaches the requirement, which then becomes the curve's value; otherwise level and requirement stay; nothing else changes |
| XPHandler.GrantsStayOnCurve | internal/handlers/xp.go:107-121 | from a pointling on the curve, any run of grants stays on it and gains at most one level per grant |
| XPHandler.LevelUpKeepsSurplus | internal/handlers/xp.go:120-126 | a fresh pointling granted 10 XP is level 2 with 10 of 6 XP, so its next grant levels it up again |
| XPHandler.Grant | internal/handlers/xp.go:91-132 | daily-limit refusal exactly over the cap; through the pool the write-back stalls unless its statement fails first; through the transaction the row becomes `LevelUp` and the event is appended |
| XPHandler.WriteBack | internal/handlers/xp.go:106-131 | the write-back succeeds only through the transaction and then leaves the row as `LevelUp` computes it |
| XPHandler.Promote | internal/handlers/xp.go:107-122 | the level-up branch stalls through the pool and otherwise writes the new level, the XP and the next requirement |
| XPHandler.AddXP | internal/handlers/xp.go:48-144 | as written: 400 for a bad source or amount, 500/404 when the snapshot read fails or finds nothing, and never 200; a grant that passes every check never answers; 429 exactly when the cap refuses and the transaction opens, sums and rolls back cleanly; 500 "Failed to process XP gain" exactly in every other case; nothing is committed |
| XPHandler.AddXPAtomic | internal/handlers/xp.go:48-144 | corrected: the same 400/404/500 checks; 429 exactly when over the cap; 200 exactly when every statement succeeds, with event, XP and level-up committed together; otherwise nothing committed; daily caps stay respected |
| XPHandler.GrantInTx | internal/handlers/xp.go:91-132 | the grant in one transaction: all of it committed or nothing |
| XPHandler.GetXPHistory | internal/handlers/xp.go:146-167 | the first page of the pointling's events, newest first, at most the clamped limit |
| PointHandler.PurchaseKeepsBalances | internal/handlers/points.go:73-96 | a payable purchase keeps every balance non-negative, leaves other users alone and adds exactly the price to the buyer's lifetime spend |
| PointHandler.Purchase | internal/handlers/points.go:73-96 | insufficient balance and already-owned exactly when they occur; success leaves `Purchased` in the transaction with the buyer's lifetime total; the pool grant commits the edge at once |
| PointHandler.Deliver | internal/handlers/points.go:79-95 | the grant adds one edge or reports already-owned, then the total is read |
| PointHandler.Transact | internal/handlers/points.go:71-96 | the purchase in the wrapper: committed exactly when every step succeeds; on failure only the pool's grant remains |
| PointHandler.PurchaseReply | internal/handlers/points.go:98-110 | 402 for insufficient balance, 409 for already owned, 500 otherwise, 200 with item, price and lifetime total on success |
| PointHandler.SpendPoints | internal/handlers/points.go:42-111 | as written: 500/404 for the item, 400 without a price, 402/409/200 as the purchase goes; a failure after the grant keeps the edge while the debit is undone |
| PointHandler.SpendPointsAtomic | internal/handlers/points.go:42-111 | corrected: the same answers; 200 exactly when the purchase completes, debit, record and item together, otherwise nothing changes |
| PointHandler.GetSpendHistory | internal/handlers/points.go:113-141 | the user's purchase rows, newest first, in the clamped window |
| ItemHandler.ListItems | internal/handlers/items.go:48-87 | 400 for the first unknown non-empty filter, 500 on a failed query, otherwise exactly the matching catalog items |
| ItemHandler.GetItem | internal/handlers/items.go:89-107 | 500 on a failed read, 404 for an unknown id, otherwise the catalog row |
| ItemHandler.CreateItemObjection | internal/handlers/items.go:126-141 | a request is accepted exactly when category, rarity and any slot are known and name and asset id are non-empty |
| ItemHandler.CreateItem | internal/handlers/items.go:119-159 | 400 with the first objection and nothing stored; 500 on a failed insert; 201 echoing the stored item under its fresh id |
| ItemHandler.AcquireItem | internal/handlers/items.go:183-236 | 500/404 for item and pointling; 403 exactly when below the unlock level; 409 exactly when already owned; 200 adds exactly the edge; no balance ever changes |
| ItemHandler.LevelGate | internal/handlers/items.go:218-222 | an item without an unlock level passes at level 1; one with an unlock level passes at that level and not below |
| ItemHandler.NotOwnedTextIsUnique | internal/handlers/items.go:264-268 | only the not-owned error has the text the handler compares with |
| ItemHandler.ToggleReply | internal/handlers/items.go:264-273 | 204 exactly on success, 404 exactly for the not-owned text, 500 otherwise |
| ItemHandler.ToggleEquipped | internal/handlers/items.go:242-274 | 204 exactly when the toggle commits, and the committed inventory is `Toggled`; 404 exactly for an unowned item, with the unequip rolled back; one equipped item per slot is preserved |
| ItemHandler.GetInventory | internal/handlers/items.go:161-181 | 500 exactly when the query fails; otherwise exactly the pointling's owned catalog items, and with a filter exactly those whose flag equals (param = "true") |
| UserHandler.CreateUser | internal/handlers/users.go:39-63 | 400 exactly for id 0 or an empty name; 201 exactly when stored, with balance 0, the user listed last and no other table changed; 500 otherwise, with nothing stored |
| UserHandler.GetUser | internal/handlers/users.go:65-83 | 500 on a failed read, 404 exactly for an unknown user, otherwise the stored user |
| UserHandler.UpdatePoints | internal/handlers/users.go:85-115 | as written: 400 exactly for a negative balance; 204 sets only the balance; never 404, so a missing user is 500 |
| UserHandler.UpdatePointsCorrected | internal/handlers/users.go:85-115 | corrected: 404 exactly for a missing user; otherwise the same answers |
| UserHandler.ListUsers | internal/handlers/users.go:117-139 | a page of distinct users, newest first: exactly the clamped limit of users after the clamped offset, or all that remain when fewer do; 500 exactly when the query fails |

## Left out

- `UserRepo.ListUsers`: `ORDER BY created_at DESC` is modelled as reverse insertion order (`userOrder`); the two orders agree only when `now` rises between creations, and ties in `created_at` are not modelled.
- `PointlingRepo.GetByUserID`: `ORDER BY created_at DESC` is modelled as descending pointling id; the two orders agree only when `now` rises between creations, and ties in `created_at` are not modelled.
- HTTP plumbing is not modelled: routing, JSON decoding and encoding, and path and query parsing. Handlers take parsed values: an absent numeric parameter is `None`, and an empty string filter is absent. The 400 answers for unparsable ids or bodies are outside the model.
- `ValidateCategory`, `ValidateRarity` and `ValidateSlot` are not defined in the source files modelled. They are a `Vocabulary` parameter: a set of accepted names per check.
- ORDER BY over text (`rarity`, `name`) and over `acquired_at` is not modelled: `ItemRepo.List`, `ItemRepo.GetUnlocksForLevel`, `DraftQuery.ListItems` and `InventoryRepo.GetItems` return sets. Newest first over the append-only logs is modelled, as reverse insertion order.
- Concurrency between requests, isolation levels, context cancellation and the timeout middleware are not modelled. The only lock effect kept is a request waiting on its own transaction.
- Foreign-key and check constraints of the database schema are not modelled: the schema is not part of this model. For example, a purchase for a pointling that does not exist still records the edge.
- Integers are unbounded: the 64-bit columns and Go `int` overflow are not modelled.
- The second error path after an UPDATE or an INSERT, a failing `RowsAffected` call, is not modelled: the PostgreSQL driver takes the count from the command tag.
- Scan errors and iteration errors of the row loops are folded into the query's own fault.
- `PointlingRepo.UpdateLook`, the `look_json` encoding and `JSONMap.Scan` are not modelled: the look is an opaque map.
- The thin pointling handlers in `internal/handlers/pointlings.go` are not modelled. They forward to `NewPointling` and to the repository, which are modelled.
- The unfinished gin layer, the service stubs, server startup and configuration are not modelled.
- `UserRepo.CreateUser`: a duplicate id is modelled as the server's unique-key error; the text of that error is not part of the source.
- `Store.Database.Finish`: a failed commit or rollback is modelled as leaving nothing of the transaction behind, as the server aborts it.

## Findings

| source | as written | input that shows it | evidently intended | confidence | as-written member | corrected member |
|---|---|---|---|---|---|---|
| internal/handlers/xp.go:114-126 | the level and XP write-back goes through the pool, on another connection, while the transaction holds the row lock from the increment at internal/repository/postgres/xp_event.go:87-94 | any valid grant to an existing pointling with no failing statement: the pooled UPDATE waits for the transaction, which waits for the handler | the write-back runs inside the transaction, so the grant commits or rolls back as one | not executed | XPHandler.AddXP | XPHandler.AddXPAtomic |
| internal/handlers/points.go:80 | the item grant goes through the pool, outside the purchase transaction | a purchase whose total query or commit fails after the grant: the debit and the spend record roll back, but the pointling keeps the item | the grant is part of the transaction, so a failed purchase leaves nothing behind | not executed | PointHandler.SpendPoints | PointHandler.SpendPointsAtomic |
| internal/handlers/users.go:103-111 | a missing user is detected by comparing the error with `sql.ErrNoRows`, but the repository reports "user not found: <id>" (internal/repository/postgres/user.go:71-73) | an update for a user id that is not stored, with a non-negative balance: the answer is 500 | 404 "User not found" for a missing user | not executed | UserHandler.UpdatePoints | UserHandler.UpdatePointsCorrected |
