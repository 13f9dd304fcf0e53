/** The optional value used for the source's `std::optional` / nullable returns. */
module Wrappers {

  datatype Option<+T> = None | Some(value: T)
}
