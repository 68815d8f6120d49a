/** An optional value, for Go's nil pointers and (value, ok) pairs, and the 0 or 1 of a truth. */
module Options {
  datatype Option<+T> = None | Some(value: T)

  function Count(b: bool): nat {
    if b then 1 else 0
  }
}
