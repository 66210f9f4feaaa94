/** The optional value used for form fields that may be left unselected. */
module Wrappers {

  datatype Option<+T> = None | Some(value: T)
}
