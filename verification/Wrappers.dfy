// Small general-purpose types and functions.
module Wrappers {
  datatype Option<T> = None | Some(value: T)

  function Min(a: nat, b: nat): nat { if a <= b then a else b }
}
