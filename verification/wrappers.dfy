/** A nullable value: pandas' NaT / SQL NULL on the one side, a present value on the other. */
module Wrappers {

  datatype Option<+T> = None | Some(value: T)
}
