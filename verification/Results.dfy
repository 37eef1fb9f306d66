/** Go's `(value, error)` results. */
module Results {
  datatype Option<+T> = None | Some(value: T) {
    function GetOr(default: T): T {
      if Some? then value else default
    }
  }

  datatype Error =
    | NameMissing(at: nat)
    | NameUnclosed(at: nat)
    | EndMissing(tag: string)
    | NoList(tag: string)
    | ReadFailed(path: string)
    | WriteFailed(path: string)
    | RemoveFailed(path: string)
    | NotFound(path: string)
    | ListFieldMissing(path: string)
    | ListFieldNotList(path: string)
    | Invalid
    | UnknownRule(name: string)

  /** The template or the spec is to blame, not the disk. */
  predicate IsTemplateError(error: Error) {
    error.NameMissing? || error.NameUnclosed? || error.EndMissing? || error.NoList?
  }

  predicate IsDiskError(error: Error) {
    error.ReadFailed? || error.WriteFailed? || error.RemoveFailed? || error.NotFound?
  }

  datatype Result<+T> = Ok(value: T) | Err(error: Error) {
    predicate IsFailure() {
      Err?
    }

    function PropagateFailure<U>(): Result<U>
      requires Err?
    {
      Err(error)
    }

    function Extract(): T
      requires Ok?
    {
      value
    }
  }
}
