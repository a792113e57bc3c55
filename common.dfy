/** Outcome types shared by every layer of the subscription service. */
module Common {

  datatype Option<T> = None | Some(value: T)

  /** A Go `(value, error)` pair where exactly one half is meaningful. */
  datatype Result<T> = Ok(value: T) | Err(error: Error)

  /** The kinds of `error` the service produces, one per distinct failure path. */
  datatype Error =
    | InvalidDateFormat   // time.Parse rejected a `MM-YYYY` text
    | DecodeFailed        // the JSON decoder rejected the request body
    | ValidationFailed    // a struct-tag rule of UserSub failed
    | MissingIdentity     // empty user id on update
    | ImmutableField      // the payload tries to change the user id
    | NoRows              // a single-row query found nothing (sql.ErrNoRows)
    | NullSum             // SUM over no rows is NULL and cannot be scanned into an int
    | NilDereference      // a nil *MonthYear was dereferenced (a Go panic)
    | StorageError        // the database failed or timed out
    | BadConfig           // the connection key is empty
}
