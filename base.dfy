/** Shared value types: an optional value and the unsigned 32-bit integers
    the program uses for image sides and orientation codes. */
module Base {

  datatype Option<+T> = None | Some(value: T)

  /** Rust's `u32`. */
  newtype u32 = x: int | 0 <= x < 0x1_0000_0000
}
