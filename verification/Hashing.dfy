/**
  Bytes and the abstract hash: SHA-256 as any function from bytes to hex names.
 */
module Hashing {

  newtype byte = x: int | 0 <= x < 0x100

  type Bytes = seq<byte>

  type HashFunction = Bytes -> string

  predicate IsHexDigit(c: char) {
    '0' <= c <= '9' || 'a' <= c <= 'f'
  }

  predicate ValidHash(h: string) {
    |h| == 64 && forall i | 0 <= i < |h| :: IsHexDigit(h[i])
  }

  /** No two of these byte strings share a hash. */
  predicate CollisionFree(hash: HashFunction, inputs: set<Bytes>) {
    forall a, b | a in inputs && b in inputs :: hash(a) == hash(b) ==> a == b
  }

  ghost predicate HashesAreNames(hash: HashFunction) {
    forall a :: ValidHash(hash(a))
  }
}
