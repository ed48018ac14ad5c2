// Small datatypes shared by every module.
module Prelude {

  datatype Option<+T> = None | Some(value: T)

  datatype Result<+T, +E> = Ok(value: T) | Err(error: E)

  // What `Result<(), E>` carries on success.
  datatype Unit = Unit

  // A byte of a packet or of a recording file, and a 16-bit field of a header. Shifting right by k
  // is division by 2^k, masking the low k bits is the remainder modulo 2^k, and an `|` of words
  // without common bits is a sum.
  type byte = b: int | 0 <= b < 0x100
  type u16 = w: int | 0 <= w < 0x1_0000

  // Subtraction that stops at zero, as `saturating_sub` does.
  function Minus(a: nat, b: nat): nat { if a >= b then a - b else 0 }
}
