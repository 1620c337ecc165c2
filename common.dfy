/** Failure-compatible wrappers shared by every module of the model. */
module Common {

  datatype Option<+T> = None | Some(value: T)

  /** The outcome of an operation that either returns a value or throws an error
      carrying a message. Supports Dafny's `:-` so that a chain of guards reads
      like the source's sequence of throwing calls. */
  datatype Result<+T> = Ok(value: T) | Err(msg: string) {
    predicate IsFailure() { Err? }

    function PropagateFailure<U>(): Result<U>
      requires Err?
    {
      Err(msg)
    }

    function Extract(): T
      requires Ok?
    {
      value
    }
  }

  /** A loosely typed JSON value that the source turns into a number with
      `Number.parseInt(String(v), 10)` or `Number.parseFloat(String(v))`.
      `Missing` is null/undefined, `Blank` the empty string, and `Given(p)` any
      other value, where `p` is what the parse makes of it (None for NaN or a
      non-finite value). */
  datatype Raw<+T> = Missing | Blank | Given(parsed: Option<T>) {
    /** What the source's parse returns for this value. */
    function Parsed(): Option<T> {
      if Given? then parsed else None
    }
  }
}
