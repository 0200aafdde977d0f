/** Option and Result, the two shapes the Rust code returns through `Option<T>`
    and panics (a panic is modelled as a `Failure`). */
module Wrappers {

  datatype Option<+T> = None | Some(value: T)

  datatype Result<+T, +E> = Success(value: T) | Failure(error: E)

  /** Rust's `i32`. */
  newtype int32 = x: int | -0x8000_0000 <= x < 0x8000_0000

  const I32_MAX: int := 0x7fff_ffff
  const I32_MIN: int := -0x8000_0000
}
