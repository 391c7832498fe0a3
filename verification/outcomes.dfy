/** Absent values and refused inputs. The score keeper expresses these with
    `null`, `undefined`, empty input strings and thrown `Error`s; the model
    uses two small datatypes instead. */
module Outcomes {

  /** A field that may hold nothing: `null`, `undefined` or an empty input. */
  datatype Option<+T> = None | Some(value: T)

  /** `o ?? fallback`: the held value when there is one, `fallback` otherwise. */
  function ValueOr<T>(o: Option<T>, fallback: T): T {
    if o.Some? then o.value else fallback
  }

  /** What an operation that may throw produced, or the reason it refused. */
  datatype Result<+R, +E> = Success(value: R) | Failure(error: E)
}
