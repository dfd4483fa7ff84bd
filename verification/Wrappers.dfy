/** A value that may be absent, bytes, and the largest int of the sources. */
module Wrappers {
  datatype Option<+T> = None | Some(value: T) {
    predicate IsFailure() { None? }
    function PropagateFailure<U>(): Option<U> requires None? { None }
    function Extract(): T requires Some? { value }
  }

  type Byte = b: int | 0 <= b < 256

  const INT_MAX := 0x7FFF_FFFF
}
