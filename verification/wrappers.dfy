/** Optional values, used for the outcomes of the conversions the source
    delegates to Python and pandas (a failed conversion is `None`). */
module Wrappers {

  datatype Option<+T> = None | Some(value: T)
}
