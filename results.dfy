/** Errors the parsers raise, and the failure-compatible types that carry them. */
module Results {

  /** One constructor per exception the parsers throw; Message() gives its text. */
  datatype Error =
    | UnexpectedEndOfFile
    | ExpectedSectionStart
    | ExpectedMeshFormat
    | ExpectedSectionMarker
    | TagNotFound(section: string)
    | UnknownElementType(code: int)
    | NotANumber
    | NotAnInteger
    | NotAFloat
    | NotAString
  {
    function Message(): string {
      match this
      case UnexpectedEndOfFile => "Unexpected end of file."
      case ExpectedSectionStart => "Expected start of section marker not found."
      case ExpectedMeshFormat => "Expected $MeshFormat section marker not found."
      case ExpectedSectionMarker => "Expected section marker not found."
      case TagNotFound(section) => section + " tag not found."
      case UnknownElementType(code) => "Unknown element type '" + Decimal(code) + "'"
      case NotANumber => "Token is not a number"
      case NotAnInteger => "Token is not an integer"
      case NotAFloat => "Token is not a float"
      case NotAString => "Token is not a string"
    }
  }

  /** The decimal text `%d` prints for n. */
  function Decimal(n: int): string
    decreases if n < 0 then 1 - n else n
  {
    if n < 0 then "-" + Decimal(-n)
    else if n < 10 then ["0123456789"[n]]
    else Decimal(n / 10) + ["0123456789"[n % 10]]
  }

  datatype Option<+T> = None | Some(value: T)

  /** A value, or the error that aborted the computation. */
  datatype Result<+T> = Ok(value: T) | Err(error: Error) {
    predicate IsFailure() { Err? }

    function PropagateFailure<U>(): Result<U>
      requires Err?
    {
      Err(error)
    }

    function Extract(): T
      requires Ok?
    {
      value
    }
  }
}
