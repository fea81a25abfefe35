/** The optional value used across the model: an absent environment
    variable, an absent Map entry, a null response body. */
module Wrappers {

  datatype Option<+T> = None | Some(value: T)
}
