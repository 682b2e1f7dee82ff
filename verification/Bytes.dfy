/** The fixed-width integers of the firmware, and the optional value. */
module Bytes {

  /** A `uint8_t`. */
  type byte = x: int | 0 <= x < 256

  /** A `uint16_t`. */
  type word = x: int | 0 <= x < 65536

  datatype Option<+T> = None | Some(value: T)

  /** The optional value as a sequence of at most one element. */
  function ToSeq<T>(o: Option<T>): seq<T> {
    match o
    case None => []
    case Some(v) => [v]
  }

  /** Conversion to `uint8_t`: the value modulo 256, also for negative values. */
  function Low8(x: int): byte {
    x % 256
  }

  lemma Low8Is(x: int, quotient: int, remainder: byte)
    requires x == 256 * quotient + remainder
    ensures Low8(x) == remainder
  {
  }
}
