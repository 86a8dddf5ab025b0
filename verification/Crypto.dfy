/** Digests, left uninterpreted: nothing is assumed about them, so every statement holds for any hash. */
module Crypto {

  type Bytes = seq<bv8>

  /** Hexadecimal digests. */
  type Digest = string

  /** BLAKE3 over a whole byte string. A streaming hasher equals this on all it was fed. */
  const Blake3: Bytes -> Digest

  /** The digest under which a name record is filed in the DHT. */
  const NameHash: string -> Digest

  /** Two different byte strings with one digest. */
  predicate Collide(a: Bytes, b: Bytes) {
    a != b && Blake3(a) == Blake3(b)
  }
}
