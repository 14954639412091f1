/** Fixed-width integers of the source. Dafny checks every operation on them, so a function
    written over these types is proved free of overflow and underflow. */
module MachineInts {
  newtype u32 = x: int | 0 <= x < 0x1_0000_0000
  newtype u64 = x: int | 0 <= x < 0x1_0000_0000_0000_0000
  newtype i64 = x: int | -0x8000_0000_0000_0000 <= x < 0x8000_0000_0000_0000

  /** The value of an `as u32` cast: the low 32 bits. */
  function TruncateToU32(x: i64): (r: u32)
    ensures r as int == x as int % 0x1_0000_0000
  {
    (x as int % 0x1_0000_0000) as u32
  }
}
