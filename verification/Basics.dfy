module Basics {
  type byte = x: int | 0 <= x < 256

  type u32 = x: int | 0 <= x < 0x1_0000_0000

  /** A 32-bit counter goes from its last value back to 0. */
  function Succ(n: u32): u32 {
    if n + 1 == 0x1_0000_0000 then 0 else n + 1
  }

  datatype Option<T> = None | Some(value: T)
}
