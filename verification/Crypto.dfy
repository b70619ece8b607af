/** Hash and signature functions, as parameters about which only what a statement names is assumed. */
module Crypto {
  import opened Encoding

  const PUBLIC_KEY_SIZE := 32
  const SIGNATURE_SIZE := 64

  datatype Primitives = Primitives(
    sha3: Bytes -> Bytes,
    publicOf: Bytes -> Bytes,
    sign: (Bytes, Bytes) -> Bytes,
    verify: (Bytes, Bytes, Bytes) -> bool)

  /** Ed25519 does its job for honestly made signatures, with its key and signature sizes; digests have 32 bytes. */
  ghost predicate Sound(c: Primitives) {
    && (forall priv :: |c.publicOf(priv)| == PUBLIC_KEY_SIZE)
    && (forall priv, msg :: |c.sign(priv, msg)| == SIGNATURE_SIZE && c.verify(c.publicOf(priv), msg, c.sign(priv, msg)))
    && (forall msg :: |c.sha3(msg)| == 32)
  }
}
