/** Optional values: a nullable pointer of the plugin (a view, the focused view) becomes an Option. */
module Wrappers {

  datatype Option<+T> = None | Some(value: T)
}
