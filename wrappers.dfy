/** The usual optional-value wrapper; `None` stands for a regex that did not match,
    a missing section or a Python `None`. */
module Wrappers {
  datatype Option<+T> = None | Some(value: T)
}
