/** Option and result types shared by the calendar modules. */
module Wrappers {

  datatype Option<+T> = None | Some(value: T)

  /** The one error the calendar functions report: an out-of-range month or
      day, an impossible date, or an empty list where a date is needed. */
  datatype Error = InvalidArgument

  datatype Result<+T> = Ok(value: T) | Err(error: Error)
}
