/** Python values and exceptions, as far as the rule language sees them. */
module PyValues {

  /** A parsed version object; only its parts are kept. */
  datatype Version = Version(parts: seq<nat>)

  /** A scalar Python value.  Floats are kept as exact reals. */
  datatype Value =
    | NoneV
    | BoolV(b: bool)
    | IntV(i: int)
    | FloatV(r: real)
    | StrV(s: string)
    | VersionV(v: Version)

  datatype Exn =
    | ValueError
    | TypeError
    | ZeroDivisionError
    | IndexError
    | UnboundLocalError
    | KeyError
    | ExpandError
    | OtherError

  /** The result of a Python computation: a value, or the exception it raises. */
  datatype Outcome<+T> = Ok(value: T) | Raise(exn: Exn) {
    predicate IsFailure() {
      Raise?
    }

    function PropagateFailure<U>(): Outcome<U>
      requires Raise?
    {
      Raise(exn)
    }

    function Extract(): T
      requires Ok?
    {
      value
    }
  }

  datatype Option<+T> = None | Some(value: T)

  function Last<T>(s: seq<T>): T
    requires s != []
  {
    s[|s| - 1]
  }

  function Front<T>(s: seq<T>): seq<T>
    requires s != []
  {
    s[..|s| - 1]
  }
}
