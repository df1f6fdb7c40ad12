/** A nullable value: `None` stands for a SQL null. */
module Wrappers {

  datatype Option<+T> = None | Some(value: T)
}
