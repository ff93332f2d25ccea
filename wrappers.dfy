/** The optional value used for the Rust `Option` fields and for the outcome of the
    foreign parsers (`Ok` becomes `Some`, `Err` becomes `None`), and the byte type. */
module Wrappers {
  datatype Option<+T> = None | Some(value: T)

  /** A Rust `u8`. */
  type byte = x: int | 0 <= x < 0x100
}
