/** 32-bit machine integers: values as C holds them, and the conversions between them. */
module MachineInts {
  const TWO_31: int := 0x8000_0000
  const TWO_32: int := 0x1_0000_0000

  type int32 = x: int | -TWO_31 <= x < TWO_31
  type uint32 = x: int | 0 <= x < TWO_32

  function ToUint32(x: int32): (r: uint32)
    ensures (r - x) % TWO_32 == 0
  {
    if x < 0 then x + TWO_32 else x
  }

  function ToInt32(x: uint32): (r: int32)
    ensures (r - x) % TWO_32 == 0 && ToUint32(r) == x
  {
    if x >= TWO_31 then x - TWO_32 else x
  }

  /** Unsigned increment. */
  function Next(x: uint32): (r: uint32)
    ensures r == (x + 1) % TWO_32
  {
    if x == TWO_32 - 1 then 0 else x + 1
  }
}
