/** Optional values. A `None` stands for a value the source represents as a
    non-finite float (NaN, or the infinity that a division by zero yields). */
module Wrappers {

  datatype Option<T> = None | Some(value: T)
}
