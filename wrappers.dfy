/** Optional values: the model's replacement for the sentinels the program
    uses (an infinite distance, a predecessor of -1, an id never assigned). */
module Wrappers {
  datatype Option<+T> = None | Some(value: T)
}
