/** Small value types shared by every module of the relay model. */
module Prelude {

  datatype Option<+T> = None | Some(value: T)

  /** The outcome of a step that either returns normally or raises. */
  datatype Result<+T, +E> = Success(value: T) | Failure(error: E)

  newtype byte = b: int | 0 <= b < 256

  type Bytes = seq<byte>
}

/**
 * The library routines the relay calls but whose internals are not modelled
 * (gzip, HMAC-SHA256, base64, UTF-8 encoding). Each is a total function value,
 * so every member that uses one is parametric in how it behaves.
 */
module Foreign {
  import opened Prelude

  datatype Lib = Lib(
    // gzip.decompress on a non-empty body; None when it raises (bad magic, truncated stream, CRC mismatch)
    gunzip: Bytes -> Option<Bytes>,
    // hmac.new(key, message, hashlib.sha256).digest()
    hmacSha256: (Bytes, Bytes) -> Bytes,
    // base64.b64encode(...).decode()
    b64encode: Bytes -> string,
    // base64.b64decode(...); None when it raises binascii.Error
    b64decode: string -> Option<Bytes>,
    // str.encode("utf-8")
    utf8: string -> Bytes
  )
}
