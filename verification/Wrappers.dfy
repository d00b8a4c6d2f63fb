/** The optional values that nullable columns and missing lookups become. */
module Wrappers {
  datatype Option<+T> = None | Some(value: T)

  /** `COALESCE(given, stored)` in the update statements. */
  function Coalesce<T>(given: Option<T>, stored: Option<T>): Option<T> {
    if given.Some? then given else stored
  }

  function Max(a: int, b: int): int {
    if a < b then b else a
  }

  function Min(a: int, b: int): int {
    if a < b then a else b
  }
}
