/** Shared value types: nullable fields and lookups, and calendar dates. */
module Common {

  /** A value that may be absent: a nullable field, or a lookup that finds nothing. */
  datatype Option<+T> = None | Some(value: T)

  /** A calendar date, as a day number; the date a day later is `d + 1`. */
  type Date = int
}
