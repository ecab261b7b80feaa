/** The optional value used wherever the Go code can panic instead of returning. */
module Wrappers {

  /** `None` stands for a run-time panic (an index out of range); `Some` for a normal return. */
  datatype Option<+T> = None | Some(value: T)
}
