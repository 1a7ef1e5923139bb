/** Option, the model's stand-in for a C# or Python reference that may be null / None. */
module Wrappers {

  datatype Option<+T> = None | Some(value: T)
}
