/** Bytes, machine integers and the hash function every component shares. */
module Primitives {
  type byte = b: int | 0 <= b < 256

  type Bytes = seq<byte>

  /** The hash function is a parameter of the model: all that is used of it is
      that it is a function with 32-byte results. */
  type Hasher = Bytes -> Bytes

  type int64 = x: int | -0x8000_0000_0000_0000 <= x < 0x8000_0000_0000_0000

  const HASH_SIZE := 32

  ghost predicate IsSha256(sha: Hasher) {
    forall x :: |sha(x)| == HASH_SIZE
  }

  /** Two different inputs with one hash, which is what any forgery exhibits. */
  datatype Collision = Collision(x: Bytes, y: Bytes) {
    ghost predicate Breaks(sha: Hasher) {
      x != y && sha(x) == sha(y)
    }
  }
}
