/** The error codes a `Decimal` operation can report, and the `Result` type
    that carries them. */
module Errors {

  /** One variant per error the library declares. */
  datatype ErrorCode =
    | ParseError
    | ParseErrorEmpty
    | ParseErrorBase10
    | DifferentScale
    | ExceedsRange
    | ExceedsPrecisionRange
    | SignedDecimalsNotSupported

  /** Rust's `Result<T, ErrorCode>`. */
  datatype Result<T> = Ok(value: T) | Err(error: ErrorCode)
}
