/** Results that may be missing: the source's NULL, its error returns and its failed assertions. */
module Wrappers {

  datatype Option<+T> = None | Some(value: T)
}
