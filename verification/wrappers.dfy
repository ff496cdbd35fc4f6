/** The optional-value datatype used wherever the source has a nullable value
    (`None` in Python, `null` in JavaScript) or an operation that may raise. */
module Wrappers {

  datatype Option<+T> = None | Some(value: T)
}
