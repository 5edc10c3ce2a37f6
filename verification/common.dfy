/**
  Shared vocabulary of the model: optional values, results, the identifier
  aliases the services pass around, and the 64-bit integer range of Go's
  `int` and `int64`.
 */
module Common {

  /** A value that may be absent: Go's nil pointer or SQL NULL. */
  datatype Option<+T> = None | Some(value: T) {

    function GetOr(default: T): T {
      match this
      case Some(v) => v
      case None => default
    }
  }

  /** The (value, error) pair of a Go call, with exactly one side meaningful. */
  datatype Result<+T, +E> = Ok(value: T) | Err(error: E)

  type UserId = string
  type ResourceId = string
  type ResourceType = string
  type TaskId = string

  const MinInt64: int := -0x8000_0000_0000_0000
  const MaxInt64: int := 0x7fff_ffff_ffff_ffff

  /** Go's `int64` (and `int` on a 64-bit platform). */
  type Int64 = x: int | MinInt64 <= x <= MaxInt64

  /** Go's `x++` on an int64: wraps from the maximum to the minimum. */
  function Inc64(x: Int64): Int64 {
    if x == MaxInt64 then MinInt64 else x + 1
  }
}
