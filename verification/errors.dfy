/**
  The error codes that the modelled code produces or stores.

  A default-constructed (or `clear()`ed) `std::error_code` is `NoError`; any other
  value converts to `true`, which is what `IsFailure` captures.
 */
module Errors {

  /** The value of a set error code. */
  type Nonzero = n: nat | n > 0 witness 1

  datatype ErrorCode =
    | NoError
    | RunAborted
    | InvalidIpv4Address
    | InvalidIpv6Address
    | AddressInUse
    | AddressFamilyNotSupported
      /**
        Any other failure reported by a socket completion. Its value is never
        zero: a zero `std::error_code` of any category converts to `false` and
        is `NoError` here.
       */
    | Transport(code: Nonzero)

  /** The truth value of an error code: set for every code except `NoError`. */
  predicate IsFailure(e: ErrorCode) {
    !e.NoError?
  }
}
