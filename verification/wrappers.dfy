/** The optional value a point lookup returns: a stored value, or no row (NULL). */
module Wrappers {

  datatype Option<+T> = None | Some(value: T)
}
