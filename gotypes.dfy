/** Go's fixed-width integers and its narrowing conversions, written out explicitly. */
module GoTypes {

  const TWO_TO_8: int := 0x100
  const TWO_TO_31: int := 0x8000_0000
  const TWO_TO_32: int := 0x1_0000_0000
  const MIN_INT64: int := -0x8000_0000_0000_0000
  const MAX_INT64: int := 0x7fff_ffff_ffff_ffff

  newtype uint8 = x: int | 0 <= x < 0x100
  newtype uint32 = x: int | 0 <= x < 0x1_0000_0000

  /** Go's `byte` is an alias of `uint8`. */
  type byte = uint8

  /** Go's `uint32(v)` for an integer `v`: the unique value in range congruent to `v` modulo 2^32. */
  function ToUint32(v: int): (r: uint32)
    ensures 0 <= v < TWO_TO_32 ==> r as int == v
    ensures (v - r as int) % TWO_TO_32 == 0
  {
    (v % TWO_TO_32) as uint32
  }

  /** Go's `uint8(v)`: the unique value in range congruent to `v` modulo 2^8. */
  function ToUint8(v: int): (r: uint8)
    ensures 0 <= v < TWO_TO_8 ==> r as int == v
    ensures (v - r as int) % TWO_TO_8 == 0
  {
    (v % TWO_TO_8) as uint8
  }

  /** Go's `int32(v)`: two's complement truncation to 32 bits. */
  function ToInt32(v: int): (r: int)
    ensures -TWO_TO_31 <= r < TWO_TO_31
    ensures -TWO_TO_31 <= v < TWO_TO_31 ==> r == v
    ensures (v - r) % TWO_TO_32 == 0
  {
    (v + TWO_TO_31) % TWO_TO_32 - TWO_TO_31
  }
}
