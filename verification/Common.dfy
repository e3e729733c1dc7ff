module Common {
  datatype Option<+T> = None | Some(value: T)

  /** Times are integer nanoseconds. */
  const SECOND: nat := 1_000_000_000

  /** The next key of a Go map range: any one that has not been visited. */
  method PickAny<T(==)>(remaining: set<T>) returns (key: T)
    requires remaining != {}
    ensures key in remaining
  {
    key :| key in remaining;
  }
}
