/** Shared vocabulary: bytes and the two sum types the Rust code returns. */
module Prelude {

  /** A Rust `u8`. */
  type byte = x: int | 0 <= x < 256

  /** Rust's `Option<T>`. */
  datatype Option<+T> = None | Some(value: T)

  /** Rust's `Result<T, E>`. */
  datatype Result<+T, +E> = Ok(value: T) | Err(error: E)

  /** The value `x as u8` for a non-negative `x`: everything above bit 7 is dropped. */
  function AsU8(x: nat): (r: byte)
    ensures x < 256 ==> r == x
    ensures (x - r) % 256 == 0
  {
    x % 256
  }
}
