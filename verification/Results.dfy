// Outcome types shared by every component: errors carry a kind and a stable
// machine code; the human-readable message is not part of this model.
module Results {

  datatype Option<+T> = None | Some(value: T)

  function OrElse<T>(option: Option<T>, default: T): T {
    if option.Some? then option.value else default
  }

  datatype ErrorKind = Usage | Schema | Ambiguity | PlanValidation | Transform | TargetValidation | Internal

  datatype Error = Error(kind: ErrorKind, code: string)

  datatype Result<+T> = Ok(value: T) | Err(error: Error) {
    predicate IsFailure() {
      Err?
    }

    function PropagateFailure<U>(): Result<U>
      requires Err?
    {
      Err(error)
    }

    function Extract(): T
      requires Ok?
    {
      value
    }
  }

  datatype Unit = Unit

  function PlanError<T>(code: string): Result<T> {
    Err(Error(PlanValidation, code))
  }

  function TransformError<T>(code: string): Result<T> {
    Err(Error(Transform, code))
  }
}
