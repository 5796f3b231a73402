/** Datatypes shared by the models. */
module Basics {
  datatype Option<+T> = None | Some(value: T)
}
