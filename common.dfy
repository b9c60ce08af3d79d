/** Shared value types of the background-remover page: bytes, optional
    values, results, and the values a JavaScript `throw` can carry. */
module Common {

  /** One element of a `Uint8ClampedArray` (an `ImageData` buffer). */
  newtype byte = x: int | 0 <= x < 256

  datatype Option<+T> = None | Some(value: T)

  datatype Result<+T, +E> = Ok(value: T) | Err(error: E)

  /** What a rejected promise or a `throw` carries: an `Error` object with its
      message, or some other thrown value. */
  datatype Thrown = ErrorObject(message: string) | NonError

  const UnknownErrorMessage := "Unknown processing error"

  /** The message shown for a failed run: the `Error`'s message, or a fixed
      text for anything else that was thrown. */
  function ErrorMessage(t: Thrown): (r: string)
    ensures t.ErrorObject? ==> r == t.message
  {
    match t
    case ErrorObject(msg) => msg
    case NonError => UnknownErrorMessage
  }

  /** The fixed text is shown exactly when something other than an `Error`
      was thrown, or an `Error` that carries that very text. */
  lemma ErrorMessageCases(t: Thrown)
    ensures ErrorMessage(t) == UnknownErrorMessage <==> t.NonError? || t.message == UnknownErrorMessage
  {
  }

  predicate IsPrefix(p: string, s: string)
  {
    |p| <= |s| && s[..|p|] == p
  }

  predicate IsSuffix(p: string, s: string)
  {
    |p| <= |s| && s[|s| - |p|..] == p
  }
}
