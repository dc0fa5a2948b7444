/** Small result types shared by every module. */
module Wrappers {
  datatype Option<+T> = None | Some(value: T)

  /** What a remote call answers: the response was lost or refused, or it carries a value. */
  datatype Reply<+T> = Lost | Answered(value: T)
}
