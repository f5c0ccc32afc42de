// The values that the codecs and the key cache exchange (internal/crypto/key.go).
module KeyTypes {
  import opened Wrappers

  newtype byte = x: int | 0 <= x < 256

  type Bytes = seq<byte>

  const KEY_SIZE: nat := 32

  // SecretKeyType; a Go uint that may also hold a value that names no cipher.
  const AES256: nat := 1
  const CHACHA20: nat := 2
  // Hash
  const SHA256: nat := 1

  datatype SecretKey = SecretKey(cipher: nat, key: Bytes, initialized: bool)

  datatype HMACKey = HMACKey(hash: nat, key: Bytes, initialized: bool)

  // A time.Time without its monotonic reading: Unix seconds, nanoseconds, and whether the location
  // is UTC.
  datatype Time = Time(seconds: int, nanos: int, utc: bool)

  datatype KeyVersion = KeyVersion(key: SecretKey, hmacKey: HMACKey, createdAt: Time, createdBy: Bytes)
}
