/** Fixed-width integers as subset types of int: the arithmetic that the drivers do on bytes and
    32-bit words is written out with explicit remainders. */
module Machine32 {
  const TWO_32: int := 0x1_0000_0000

  type byte = x: int | 0 <= x < 256

  type u32 = x: int | 0 <= x < TWO_32

  function Wrap32(x: int): (r: u32) {
    x % TWO_32
  }
}
