/** The optional-value type used for the source's `T | undefined` and `T | null`. */
module Wrappers {

  datatype Option<T> = None | Some(value: T)

  /** `o || fallback` for a value whose only falsy case is absence. */
  function OrElse<T>(o: Option<T>, fallback: T): T
  {
    match o
    case Some(v) => v
    case None => fallback
  }
}
