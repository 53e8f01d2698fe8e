/** The optional value used for cells a CSV file may leave empty and for a load that may fail. */
module Wrappers {
  datatype Option<+T> = None | Some(value: T)
}
