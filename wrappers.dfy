/** Optional values: the model's stand-in for the C# `null` that the factory,
    the transformer and the scan filler use to say "nothing". */
module Wrappers {
  datatype Option<+T> = None | Some(value: T)
}
