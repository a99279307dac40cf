/** What the HTTP handlers (internal/handlers) answer, and the query-parameter
    rules they share. Path parsing and JSON decoding are outside the model: the
    handlers take already decoded values, and an optional query parameter is
    `None` when it is absent or not an integer. */
module Http {
  import opened Entities

  /** The response of a handler: a JSON body with a success status, an error
      (`{"error": message}`) with its status, or none at all because the request
      is stuck on a statement that never returns. */
  datatype Reply<T> =
    | Answer(status: int, body: T)
    | Refusal(status: int, message: string)
    | NoAnswer

  const StatusOK := 200
  const StatusCreated := 201
  const StatusNoContent := 204
  const StatusBadRequest := 400
  const StatusPaymentRequired := 402
  const StatusForbidden := 403
  const StatusNotFound := 404
  const StatusConflict := 409
  const StatusTooManyRequests := 429
  const StatusInternalServerError := 500

  const DefaultLimit := 50
  const MaxLimit := 100

  /** The `limit` query parameter of the history and listing endpoints: 50
      unless an integer in 1..100 is given. */
  function PageLimit(requested: Option<int>): (limit: int)
    ensures 1 <= limit <= MaxLimit
    ensures limit == DefaultLimit || requested == Some(limit)
    ensures requested.Some? && 1 <= requested.value <= MaxLimit <==> requested == Some(limit)
  {
    if requested.Some? && 0 < requested.value <= MaxLimit then requested.value else DefaultLimit
  }

  /** The `offset` query parameter: 0 unless a non-negative integer is given. */
  function PageOffset(requested: Option<int>): (offset: int)
    ensures offset >= 0
    ensures offset == 0 || requested == Some(offset)
    ensures requested.Some? && requested.value >= 0 ==> offset == requested.value
  {
    if requested.Some? && requested.value >= 0 then requested.value else 0
  }
}
