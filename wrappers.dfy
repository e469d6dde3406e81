/** Small definitions shared by the other modules. */
module Wrappers {
  /** Optional values: Python's `None` versus a present value. */
  datatype Option<+T> = None | Some(value: T)

  function Min(a: nat, b: nat): nat {
    if a <= b then a else b
  }
}
