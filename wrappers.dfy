/** The present/absent result the data-access layer returns from its lookups
    (a Python dict or None). */
module Wrappers {

  datatype Option<+T> = None | Some(value: T)
}
