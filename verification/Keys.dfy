/** Key material and the primitives over it (crates/sidevers-core/src/keys.rs). */
module Keys {
  import opened Bytes

  const PUBLIC_KEY_LEN := 32
  const SIGNATURE_LEN := 64

  type PublicKey = s: seq<byte> | |s| == 32 witness Zeros(32)
  type Signature = s: seq<byte> | |s| == 64 witness Zeros(64)

  /** BLAKE3, plain and keyed, and Ed25519 verification, uninterpreted. */
  datatype Crypto = Crypto(
    hash: seq<byte> -> seq<byte>,
    keyedHash: (seq<byte>, seq<byte>) -> seq<byte>,
    validKey: PublicKey -> bool,
    verify: (PublicKey, seq<byte>, Signature) -> bool)
}
