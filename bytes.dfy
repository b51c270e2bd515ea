/** The byte type shared by the pixel text form and the image loader. */
module Bytes {

  /** Rust's `u8`. */
  newtype byte = x: int | 0 <= x < 256
}
