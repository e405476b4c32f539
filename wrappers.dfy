/** Result types shared by every module of the model.

    Rust code in this engine reports two kinds of failure: a `panic!` (or an
    `expect`/index failure, which also panics) and an `Err` value. A panic is
    modelled as the `Panic` alternative of `Outcome`, carrying the message the
    source prints; `Result` models Rust's `Result`. */
module Wrappers {

  datatype Option<+T> = None | Some(value: T)

  /** What a call that may panic produces: its value, or the panic. */
  datatype Outcome<+T> = Done(value: T) | Panic(msg: string)

  datatype Result<+T, +E> = Ok(value: T) | Err(error: E)

  /** Rust's fixed-width integers, as ranges of mathematical integers. */
  type u8 = x: int | 0 <= x < 0x100
  type u32 = x: int | 0 <= x < 0x1_0000_0000
  type u64 = x: int | 0 <= x < 0x1_0000_0000_0000_0000
  type i32 = x: int | -0x8000_0000 <= x < 0x8000_0000
  type i64 = x: int | -0x8000_0000_0000_0000 <= x < 0x8000_0000_0000_0000

  /** `x as i32` for a `u32` x: two's-complement reinterpretation. */
  function AsI32(x: u32): (r: int)
    ensures -0x8000_0000 <= r < 0x8000_0000
    ensures x < 0x8000_0000 ==> r == x
    ensures x >= 0x8000_0000 ==> r < 0
  {
    if x < 0x8000_0000 then x else x - 0x1_0000_0000
  }

  /** `x as i64` for a `u64` x: two's-complement reinterpretation. */
  function AsI64(x: u64): (r: int)
    ensures -0x8000_0000_0000_0000 <= r < 0x8000_0000_0000_0000
    ensures x < 0x8000_0000_0000_0000 ==> r == x
    ensures x >= 0x8000_0000_0000_0000 ==> r < 0
  {
    if x < 0x8000_0000_0000_0000 then x else x - 0x1_0000_0000_0000_0000
  }

  function Min(a: int, b: int): int { if a <= b then a else b }
  function Max(a: int, b: int): int { if a >= b then a else b }
}
