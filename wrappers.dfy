/** Optional values, used for the parts of the service that may be absent
    (the NLP model) or may not happen (a search that raises). */
module Wrappers {

  datatype Option<+T> = None | Some(value: T)
}
