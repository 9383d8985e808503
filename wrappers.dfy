/** Optional values: `None` stands for the null pointers the loader and the importer return. */
module Wrappers {
  datatype Option<+T> = None | Some(value: T)
}
