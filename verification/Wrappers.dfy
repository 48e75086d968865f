/** Failure-free stand-ins for Python's `None` and for raised exceptions. */
module Wrappers {

  datatype Option<+T> = None | Some(value: T)

  datatype Result<+T, +E> = Ok(value: T) | Err(error: E)

  ghost function SetOf<T>(xs: seq<T>): set<T> {
    set x | x in xs
  }

  /** `text or ""`. */
  function OrEmpty(o: Option<string>): string {
    if o.Some? then o.value else ""
  }

  /** Python truthiness of an optional string. */
  predicate Truthy(o: Option<string>) {
    o.Some? && o.value != ""
  }

  function Least(a: nat, b: nat): nat {
    if a <= b then a else b
  }
}
