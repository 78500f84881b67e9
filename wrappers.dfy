/** Option and Result, used for null results and the exceptions of the program. */
module Wrappers {

  /** `None` stands for `nullptr` or an absent attribute. */
  datatype Option<+T> = None | Some(value: T)

  /** `Failure` stands for a run that the program does not finish normally. */
  datatype Result<+R, +E> = Success(value: R) | Failure(error: E)
}
