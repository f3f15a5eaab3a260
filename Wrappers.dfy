/** Optional values: the model's counterpart of java.util.Optional and of a caught exception. */
module Wrappers {

  datatype Option<+T> = None | Some(value: T)
}
