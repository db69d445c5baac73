/** Optional values, standing for `std::optional` in the logger (the last GTE
    state, a node's attached GTE state, the VRAM snapshot). */
module Wrappers {

  datatype Option<+T> = None | Some(value: T)

}
