/** Optional values: a pandas cell that may be missing (NaN / NaT / None). */
module Wrappers {

  datatype Option<+T> = None | Some(value: T)

}
