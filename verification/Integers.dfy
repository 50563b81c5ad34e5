/** The machine's integer types, as ranges of unbounded integers. */
module Integers {

  const TWO_16 := 0x1_0000
  const TWO_31 := 0x8000_0000
  const TWO_32 := 0x1_0000_0000
  const TWO_64 := 0x1_0000_0000_0000_0000

  type Nibble = x: int | 0 <= x < 16
  type U8 = x: int | 0 <= x < 0x100
  type U16 = x: int | 0 <= x < TWO_16
  type U32 = x: int | 0 <= x < TWO_32
  type U64 = x: int | 0 <= x < TWO_64
  type I16 = x: int | -0x8000 <= x < 0x8000

  /** The sum of a list, such as the cycles of several steps. */
  function Total(parts: seq<U32>): nat {
    if parts == [] then 0 else Total(parts[..|parts| - 1]) + parts[|parts| - 1]
  }
}
