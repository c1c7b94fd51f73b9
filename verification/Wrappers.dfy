/** Result types shared by every module. */
module Wrappers {
  datatype Option<+T> = None | Some(value: T)

  datatype Result<+T, +E> = Success(value: T) | Failure(error: E)

  /** Python truthiness of an optional string: neither missing nor empty. */
  predicate Given(text: Option<string>) {
    text.Some? && text.value != ""
  }
}
