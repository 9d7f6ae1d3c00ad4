/** Byte strings as the codec sees them: Python `bytes` values. */
module Bytes {

  /** One octet; a Python `bytes` element. */
  type byte = x: int | 0 <= x < 256

  /** Python's `s.startswith(prefix)` on byte strings: false whenever `s` is too short. */
  predicate StartsWith(s: seq<byte>, prefix: seq<byte>) {
    |s| >= |prefix| && s[..|prefix|] == prefix
  }

  /** Python's `s.endswith(b)` for a one-byte suffix `b`. */
  predicate EndsWithByte(s: seq<byte>, b: byte) {
    |s| >= 1 && s[|s| - 1] == b
  }
}
