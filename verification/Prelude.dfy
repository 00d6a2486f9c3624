/** Types shared by every component of the node model. */
module Prelude {

  datatype Option<+T> = None | Some(value: T)

  datatype Result<+T, +E> = Ok(value: T) | Err(error: E)

  type Byte = x: int | 0 <= x < 256

  type Bytes = seq<Byte>

  /** Number of values of Go's uint64. */
  const U64: int := 0x1_0000_0000_0000_0000

  type Uint64 = x: int | 0 <= x < U64

  /** Clock readings are nanoseconds, as in Go's time package. */
  const SECOND: int := 1_000_000_000
  const MINUTE: int := 60 * SECOND
}
