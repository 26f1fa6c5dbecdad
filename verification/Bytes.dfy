/** Bytes, as the programs that work on raw memory see them. */
module Bytes {

  type byte = x: int | 0 <= x < 256
}
