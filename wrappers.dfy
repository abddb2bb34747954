/** Option and Result: the shapes of Rust's `Option<T>` and `Result<T, E>`. */
module Wrappers {

  datatype Option<+T> = None | Some(value: T)
  {
    /** `unwrap_or` */
    function UnwrapOr(default: T): T
    {
      if Some? then value else default
    }
  }

  /** With the members `:-` needs, so that `var x :- r;` behaves as Rust's `r?`. */
  datatype Result<+T, +E> = Ok(value: T) | Err(error: E)
  {
    predicate IsFailure()
    {
      Err?
    }

    function PropagateFailure<U>(): Result<U, E>
      requires Err?
    {
      Err(error)
    }

    function Extract(): T
      requires Ok?
    {
      value
    }
  }
}
