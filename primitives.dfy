/** The foreign code that brainflayer.c calls but does not contain: the OpenSSL hashes,
    the precomputed-table secp256k1 multiplication, hex decoding and the three KDFs.
    Each is a parameter of the model, known only by its signature and its return code. */
module Primitives {
  import opened Basics

  /** What a KDF leaves behind: its return code and the 32 bytes it wrote. */
  datatype KdfOut = KdfOut(ret: int, key: Bytes32)

  /** What `brainv2` leaves behind: its return code and the 32 hex characters it wrote
      (the 33-byte `hexout` without its terminating NUL). */
  datatype HexOut = HexOut(ret: int, hex: Bytes32)

  datatype Primitives = Primitives(
    /** SHA-256 of a byte string (`SHA256_Init/Update/Final`). */
    sha256: seq<byte> -> Bytes32,
    /** RIPEMD-160 of a SHA-256 digest (`RIPEMD160_Init/Update/Final`). */
    ripemd160: Bytes32 -> Bytes20,
    /** `secp256k1_ec_pubkey_create_precomp`: the 65-byte serialization it writes for a
        32-byte private key. Its own return code is ignored by the caller. */
    pubkeyCreate: Bytes32 -> Bytes65,
    /** `unhex(str, str_sz, unhexed, 4096)`: the new contents of the 4096-byte destination
        buffer, given the text and the buffer's old contents. */
    unhex: (seq<byte>, Buf) -> Buf,
    /** `warpwallet(pass, salt, out)`. */
    warpwallet: (seq<byte>, seq<byte>) -> KdfOut,
    /** `brainwalletio(pass, salt, out)`. */
    brainwalletio: (seq<byte>, seq<byte>) -> KdfOut,
    /** `brainv2(pass, salt, hexout)`. */
    brainv2: (seq<byte>, seq<byte>) -> HexOut
  )

  /** RIPEMD160(SHA256(data)), the 20-byte key hash. */
  function Hash160(p: Primitives, data: seq<byte>): Bytes20
  {
    p.ripemd160(p.sha256(data))
  }
}
