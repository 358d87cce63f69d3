/** The Python `None` / value alternative used by optional parameters. */
module Wrappers {

  datatype Option<+T> = None | Some(value: T)
}
