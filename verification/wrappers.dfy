/** Failure-carrying datatypes used throughout the model: an absent value
    (an unset environment variable, a date string that does not parse) and
    the outcome of a call into the compute service. */
module Wrappers {

  datatype Option<+T> = None | Some(value: T) {

    /** The value, or `default` when absent: the model of `dict.get(key, default)`. */
    function GetOr(default: T): (r: T)
      ensures Some? ==> r == value
      ensures None? ==> r == default
    {
      match this
      case Some(v) => v
      case None => default
    }
  }

  /** The outcome of a service call: its decoded response, or the text of
      the exception it raised. */
  datatype Result<+R, +E> = Success(value: R) | Failure(error: E)
}
