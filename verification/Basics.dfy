/** Small datatypes shared by every component. */
module Basics {
  datatype Option<+T> = None | Some(value: T)
}
