/** Option and Result values shared by every module, and machine integers. */
module Basics {

  datatype Option<+T> = None | Some(value: T)

  datatype Result<+T, +E> = Ok(value: T) | Err(error: E)

  type byte = b: int | 0 <= b < 0x100
  type bytes = seq<byte>

  const TWO_TO_THE_32: int := 0x1_0000_0000
  const TWO_TO_THE_64: int := 0x1_0000_0000_0000_0000

  type u32 = n: int | 0 <= n < TWO_TO_THE_32
  type u64 = n: int | 0 <= n < TWO_TO_THE_64

  /** The value a `u64` operation leaves in release mode: reduced modulo 2^64. */
  function Wrap64(n: int): (r: u64) {
    n % TWO_TO_THE_64
  }
}
