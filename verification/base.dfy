/** Failure-carrying datatypes shared by every module of the model.
    `Option` stands for Rust's `Option<T>` and `Result` for `Result<T, E>`. */
module Base {

  datatype Option<+T> = None | Some(value: T) {

    /** Rust's `unwrap_or`: the carried value, or `default` when absent. */
    function GetOr(default: T): T
    {
      match this
      case Some(v) => v
      case None => default
    }

    /** Rust's `Option::or`: this value when present, otherwise `other`. */
    function Or(other: Option<T>): Option<T>
    {
      if Some? then this else other
    }
  }

  datatype Result<+T, +E> = Ok(value: T) | Err(error: E) {

    predicate IsFailure() {
      Err?
    }

    function PropagateFailure<U>(): Result<U, E>
      requires Err?
    {
      Err(error)
    }

    function Extract(): T
      requires Ok?
    {
      value
    }
  }

  /** The outcome of one interaction with the operating system (a spawn, a
      pipe write, a watcher registration), with the error's text on failure. */
  datatype IoResult = IoOk | IoFailed(reason: string)

  /** What the file system says about a requested directory (`Path::is_absolute`
      and `Path::exists`). */
  datatype DirFacts = DirFacts(isAbsolute: bool, present: bool)
}
