/** Definitions shared by several modules. */
module Common {

  datatype Option<+T> = None | Some(value: T)

  function Min(a: nat, b: nat): nat { if a < b then a else b }

  function Max(a: nat, b: nat): nat { if a < b then b else a }
}
