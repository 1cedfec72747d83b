/** Result wrappers shared by the model. */
module Outcomes {

  /** An optional value; stands for the source's `null`-or-value state. */
  datatype Option<+T> = None | Some(value: T)

  /** What a request to the remote task service gave back: the response body on
      a 2xx answer, or a failure (network error or non-2xx status). The caught
      exception is only logged by the source, so it carries no payload here. */
  datatype Outcome<+T> = Ok(value: T) | Failed
}
