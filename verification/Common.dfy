/** Option and result types, the storage layer's error codes and the bounds shared by the models. */
module Common {
  /** The largest stored integer: of a timestamp, a revision or a stream position. */
  const I64_MAX: int := 9223372036854775807

  /** How long an admitted command is kept for deduplication. */
  const RETENTION_SECONDS: int := 7 * 24 * 60 * 60

  datatype Option<+T> = None | Some(value: T)

  datatype StorageError =
    | Conflict
    | Busy
    | IntegrityFailure
    | InvalidRequest
    | CapacityExhausted
    | CursorExpired
    | Unavailable

  /** A refused operation is an `Err`; its transaction rolls back, so nothing it did survives. */
  datatype Result<+T> = Ok(value: T) | Err(error: StorageError) {
    predicate IsFailure() {
      Err?
    }

    function PropagateFailure<U>(): (r: Result<U>)
      requires Err?
    {
      Err(error)
    }

    function Extract(): (r: T)
      requires Ok?
    {
      value
    }
  }
}
