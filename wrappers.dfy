/** The conventional optional value, used for a possibly absent session entry
    and for the latest value of a possibly empty indicator series. */
module Wrappers {
  datatype Option<+T> = None | Some(value: T)
}
