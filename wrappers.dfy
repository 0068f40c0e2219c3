/** Option and Result, plus the few java.util.Optional combinators the
    configuration getters are written with (map, filter, orElse). */
module Wrappers {

  datatype Option<+T> = None | Some(value: T)

  datatype Result<+R, +E> = Success(value: R) | Failure(error: E)

  /** Optional.map */
  function MapOpt<T, U>(o: Option<T>, f: T -> U): Option<U>
  {
    match o
    case None => None
    case Some(v) => Some(f(v))
  }

  /** Optional.filter: keeps the value only when it satisfies p */
  function FilterOpt<T>(o: Option<T>, p: T -> bool): Option<T>
  {
    match o
    case None => None
    case Some(v) => if p(v) then o else None
  }

  /** Optional.orElse */
  function OrElse<T>(o: Option<T>, default: T): T
  {
    match o
    case None => default
    case Some(v) => v
  }
}
