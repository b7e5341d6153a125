/** Failure-carrying values shared by every module of the model. */
module Wrappers {

  datatype Option<+T> = None | Some(value: T)

  datatype Result<+R, +E> = Success(value: R) | Failure(error: E)

  /** The ways an operation of the client can fail.  Go reports all of them as
      an `error` value except `ApiKeyNotSet`, which is a panic in the source
      (internal/config/config.go) and aborts the whole process. */
  datatype Error =
    | InvalidUrl(reason: string)     // net/url refused the source URL
    | Transport(reason: string)      // the HTTP client could not complete the exchange
    | StatusError(status: string)    // unexpected status; carries the response's status text
    | DecodeError(reason: string)    // the JSON body of a shrink response did not decode
    | FileError(reason: string)      // opening, creating or copying a local file failed
    | ApiKeyNotSet                   // neither the flag nor the environment holds a key
}
