/** Shared value types: optional values, decode results and the fixed-width
    unsigned integers the ASN.1 schema uses. */
module Wrappers {

  /** An 8-bit unsigned integer (ASN.1 Uint8); one octet of an encoding. */
  newtype uint8 = x: int | 0 <= x < 0x100

  /** A 16-bit unsigned integer (ASN.1 Uint16). */
  newtype uint16 = x: int | 0 <= x < 0x1_0000

  /** A 32-bit unsigned integer (ASN.1 Uint32, used by Time32). */
  newtype uint32 = x: int | 0 <= x < 0x1_0000_0000

  type Bytes = seq<uint8>

  datatype Option<+T> = None | Some(value: T)

  /** What the underlying codec throws on a malformed encoding. */
  datatype DecodeError = DecodeError(reason: string)

  /** A successfully decoded value and the number of octets the decoder
      advanced its cursor by. */
  datatype Decoded<+T> = Decoded(value: T, consumed: nat)

  /** `from_oer` either returns a value or throws. */
  datatype Result<+T> = Success(value: T) | Failure(error: DecodeError)

  /** The `from_oer` of some type: octets in, a value and a cursor advance out. */
  type Decoder<T> = Bytes -> Result<Decoded<T>>
}
