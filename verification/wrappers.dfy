/** The optional-value datatype used for SQL `fetchone()` results, dictionary
    lookups that may miss, and the session that may be absent. */
module Wrappers {

  datatype Option<+T> = None | Some(value: T)
}
