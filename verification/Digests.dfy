/** Byte strings, 32-byte digests, and a hash function about which nothing else is assumed. */
module Digests {
  import opened Numerals

  type Bytes = seq<byte>
  type Digest = b: Bytes | |b| == 32 witness seq(32, _ => 0)
  type Sha256 = Bytes -> Digest

  /** Two different inputs with the same digest. */
  ghost predicate Collision(sha: Sha256, a: Bytes, b: Bytes) {
    a != b && sha(a) == sha(b)
  }
}
