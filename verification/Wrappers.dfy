/** Optional values: `None` stands for the source's null or for a run that has no defined outcome. */
module Wrappers {

  datatype Option<+T> = None | Some(value: T)
}
