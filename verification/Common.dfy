/** Values shared by the models of the services. */
module Common {
  datatype Option<+T> = None | Some(value: T)

  /** The outcome of an operation that the service may refuse with an error. */
  datatype Result<+T> = Success(value: T) | Failure(error: Error)

  datatype Error =
    | NotFound
    | Conflict
    | Validation
    | InvalidState
    | Forbidden
    | Precondition
    | Unsupported

  /** A JavaScript string: a sequence of UTF-16 code units. */
  type Unit = u: int | 0 <= u < 0x10000

  type Text = seq<Unit>

  /** The text of a string of ASCII characters. */
  function Ascii(s: string): Text {
    seq(|s|, i requires 0 <= i < |s| => if s[i] < 0x80 as char then s[i] as int else 0)
  }

  /** What a reader makes of the front of a text, and the text left after it. */
  datatype Parsed<+T> = Bad | Got(value: T, rest: Text)

  function Min(a: int, b: int): int {
    if a < b then a else b
  }

  function Max(a: int, b: int): int {
    if a < b then b else a
  }
}
