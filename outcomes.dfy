/** Error outcomes of the calendar views and the optional-value wrapper they use. */
module Outcomes {

  /** How a view can end other than with a value. */
  datatype Error =
    | InvalidDate      // `date(...)` or `relativedelta` arithmetic raises ValueError (year, month or day out of range)
    | DateOverflow     // adding or subtracting days leaves the range of `date` (OverflowError)
    | InvalidArgument  // `long(...)` rejects the text it is given (ValueError)
    | NotFound         // `get_object_or_404` finds no row (Http404)

  datatype Result<T> = Ok(value: T) | Err(error: Error)

  datatype Option<T> = None | Some(value: T)
}
