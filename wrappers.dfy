/** Small failure-compatible datatypes shared by the whole model. */
module Wrappers {

  /** A value that may be absent (`undefined` in the source). */
  datatype Option<+T> = None | Some(value: T)

  /** The reply of one call into the Slack platform: either `ok` with a payload,
      or not `ok` with the platform's error string. */
  datatype Response<+T> = Success(value: T) | Failure(error: string)
}
