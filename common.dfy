/** Small value types shared by every component: optional values, results
    and the fixed-width unsigned integers of the source. */
module Common {

  /** An optional value, as Rust's `Option`. */
  datatype Option<+T> = None | Some(value: T)

  /** A value or an error, as Rust's `Result`. */
  datatype Result<+T, +E> = Ok(value: T) | Err(error: E)

  /** Clock readings and pauses are integer milliseconds; lifetimes are whole seconds. */
  const MillisPerSecond: nat := 1000

  /** Rust's `u64`. */
  type U64 = x: int | 0 <= x < 0x1_0000_0000_0000_0000

  /** Rust's `u128`, the type of a client session id. */
  type U128 = x: int | 0 <= x < 0x1_0000_0000_0000_0000_0000_0000_0000_0000
}
