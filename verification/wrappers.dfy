/** The optional value shared by the modules of this project. */
module Wrappers {

  /** Either nothing (Python's `None`, or a conversion that did not succeed)
      or a value. */
  datatype Option<+T> = None | Some(value: T)
}
