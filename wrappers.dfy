/** Optional values, used where the source looks a key up in a dictionary. */
module Wrappers {

  datatype Option<+T> = None | Some(value: T)
}
