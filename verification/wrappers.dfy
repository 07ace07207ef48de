/** Failure-carrying results. A thrown `Error` in the application becomes `Err(message)`. */
module Wrappers {

  datatype Option<+T> = None | Some(value: T) {
    function GetOr(default: T): T {
      match this
      case Some(v) => v
      case None => default
    }
  }

  datatype Result<+T> = Ok(value: T) | Err(msg: string)

  /** A number is truthy when present (not `undefined`/`NaN`) and non-zero. */
  predicate Truthy(o: Option<int>) {
    o.Some? && o.value != 0
  }

  /** `o || d` on a possibly missing number. */
  function Or(o: Option<int>, d: int): int {
    if Truthy(o) then o.value else d
  }

  /** `s || d` on a string: the empty string and a missing value are both falsy. */
  function OrStr(s: string, d: string): string {
    if s != [] then s else d
  }
}
