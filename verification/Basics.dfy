/**
  Types shared by the codecs and the chain model.
 */
module Basics {
  newtype byte = x: int | 0 <= x < 256
  type bytes = seq<byte>

  const TWO_64: int := 0x1_0000_0000_0000_0000

  type uint64 = x: int | 0 <= x < TWO_64

  datatype Option<+T> = None | Some(value: T)

  /** A math.Int or LegacyDec: a nil pointer or a number (a LegacyDec scaled by 10^18). */
  datatype Number = Nil | Num(value: int)
}
