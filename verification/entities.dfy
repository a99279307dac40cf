/** Rows of the Pointlings store, the errors its operations report, and the
    statements through which the storage collaborator can fail. */
module Entities {

  datatype Option<+T> = None | Some(value: T)

  /** A value or the error a Go function returned instead of it. */
  datatype Result<+T> = Ok(value: T) | Err(error: Error)

  /** A row of `users`. `createdAt` is an abstract timestamp; 0 is Go's zero time. */
  datatype User = User(id: int, displayName: string, balance: int, createdAt: int)

  /** The appearance map `look_json`, kept opaque (values abstracted to text). */
  type Look = map<string, string>

  /** A row of `pointlings`. */
  datatype Pointling = Pointling(
    id: int,
    userId: int,
    nickname: Option<string>,
    level: int,
    currentXP: int,
    requiredXP: int,
    personalityId: Option<int>,
    look: Look,
    createdAt: int)

  /** A row of the `items` catalog; `slot`, `price` and `unlockLevel` may be NULL. */
  datatype Item = Item(
    id: int,
    category: string,
    slot: Option<string>,
    assetId: string,
    name: string,
    rarity: string,
    price: Option<int>,
    unlockLevel: Option<int>)

  /** The non-key columns of a `pointling_items` row, whose key is (pointling id, item id). */
  datatype Edge = Edge(acquiredAt: int, equipped: bool)

  /** A row of `xp_events`; `day` is the calendar day of `event_ts`. */
  datatype XPEvent = XPEvent(id: int, pointlingId: int, source: string, amount: int, day: int, ts: int)

  /** A row of `point_spend`. */
  datatype PointSpend = PointSpend(id: int, userId: int, itemId: int, points: int, ts: int)

  /** The errors of the core. Go compares some of them by identity (`err == ErrX`)
      and one by its text, so both are modelled: the constructor is the identity,
      `Message` the text. */
  datatype Error =
    | DailyXPLimitReached
    | InsufficientBalance
    | AlreadyOwned
    /** `fmt.Errorf("pointling does not own this item")` */
    | NotOwned
    /** `fmt.Errorf("<table> not found: %d", id)` after an UPDATE touched no row */
    | RowNotFound(table: string, id: int)
    /** an error reported by the database driver or server */
    | Driver(message: string)
    /** `fmt.Errorf("<context>: %w", inner)` */
    | Wrapped(context: string, inner: Error)
    /** the error InTransaction builds when the rollback itself fails */
    | RollbackFailed(rollback: Error, original: Error)
    /** Not a Go error value: the statement waits for a row lock held by the
        request's own open transaction, so the call never returns. The model
        ends the request at that point. */
    | Stalled

  const NotOwnedText := "pointling does not own this item"
  const NoRows := Driver("sql: no rows in result set")
  const DuplicateKey := Driver("duplicate key value violates unique constraint")

  function Message(e: Error): string
  {
    match e
    case DailyXPLimitReached => "daily XP limit reached for this source"
    case InsufficientBalance => "insufficient point balance"
    case AlreadyOwned => "item already owned"
    case NotOwned => NotOwnedText
    case RowNotFound(table, id) => table + " not found: " + Decimal(id)
    case Driver(m) => m
    case Wrapped(c, inner) => c + ": " + Message(inner)
    case RollbackFailed(rb, orig) =>
      "rollback failed: " + Message(rb) + " (original error: " + Message(orig) + ")"
    case Stalled => "statement waits for a lock held by its own request"
  }

  /** Decimal text of an integer, as `%d` and `fmt.Sprint` print it. */
  function Decimal(n: int): (s: string)
    ensures |s| > 0
    decreases if n < 0 then 1 - n else n
  {
    if n < 0 then "-" + Decimal(-n)
    else if n < 10 then ["0123456789"[n]]
    else Decimal(n / 10) + ["0123456789"[n % 10]]
  }

  /** The storage statements of the core; any of them can fail. */
  datatype Stmt =
    | BeginTx | CommitTx | RollbackTx
    | SelectUser | UserInsert | UpdateBalance | ListUsersQuery
    | PointlingInsert | SelectPointling | PointlingsOfUser
    | UpdatePointlingXP | UpdatePointlingLevel | UpdatePointlingNickname
    | SelectItem | ListItemsQuery | UnlocksQuery | ItemInsert
    | DailyXPSum | InsertXPEvent | IncrementXP | EventsQuery
    | DebitBalance | InsertSpend | SpendsQuery | TotalSpentSum
    | EdgeInsert | OwnedItemsQuery | EquippedInSlotQuery | UnequipSlot | EquipUpdate

  /** The failing statements of one request, each with the driver's message. */
  type Faults = map<Stmt, string>

  const NoFaults: Faults := map[]
}
