/** Option and Result, plus the outcome shapes the CRUD layer returns. */
module Wrappers {

  /** A value that may be missing: Python's `T | None`. */
  datatype Option<+T> = None | Some(value: T)

  /** A validation result: the parsed value, or why the payload was refused. */
  datatype Result<+R, +E> = Success(value: R) | Failure(error: E)

  /** One key of a partial-update dict built with `exclude_unset=True`:
      either the client left the key out, or it sent a value (possibly null). */
  datatype Supplied<+T> = Omitted | Given(value: T)

  /** `after` is what a partial update leaves in a field that held `before`:
      the supplied value if the key was sent, the old value otherwise. */
  predicate Follows<T(==)>(before: T, key: Supplied<T>, after: T) {
    if key.Given? then after == key.value else after == before
  }

  /** What a read returns: the whole collection (the order a query returns rows
      in is up to the engine, so it is a set), one row, or `None`. */
  datatype Read<T> = Listed(items: set<T>) | Found(item: T) | Missing

  /** What a write returns: `None` because the row is absent, the written row,
      or the commit raised an integrity error and the transaction was rolled
      back, so nothing was stored. */
  datatype Write<+T> = Absent | Done(value: T) | Rejected
}
