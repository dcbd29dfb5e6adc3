/** The optional value shared by the catalog lookup and the string search. */
module Wrappers {

  /** `None` for the absent value: `npos`, or the kind the catalog has no name for. */
  datatype Option<T> = None | Some(value: T)
}
