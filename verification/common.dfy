/** Shared vocabulary of the enclave model: failure-carrying wrappers, bytes
    and the 32-byte SHA-256 digest that binds a TLS certificate to an
    attestation document. */
module Common {

  /** Go's nil-able values: `None` stands for nil. */
  datatype Option<+T> = None | Some(value: T)

  /** A Go `(value, error)` pair where exactly one side is meaningful. */
  datatype Result<+T, +E> = Ok(value: T) | Err(error: E)

  newtype byte = b: int | 0 <= b < 256

  type Bytes = seq<byte>

  /** Size of a SHA-256 digest (`sha256.Size`). */
  const DigestSize: nat := 32

  /** A `[sha256.Size]byte` array. */
  type Digest = s: Bytes | |s| == DigestSize witness ZeroDigest

  /** The zero value of a `[32]byte` array, which is what a freshly created
      enclave holds as its certificate fingerprint. */
  const ZeroDigest: Bytes := [0, 0, 0, 0, 0, 0, 0, 0, 0, 0, 0, 0, 0, 0, 0, 0,
                              0, 0, 0, 0, 0, 0, 0, 0, 0, 0, 0, 0, 0, 0, 0, 0]
}
