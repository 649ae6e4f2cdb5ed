/** The Microsoft Graph response envelope. src/lib.rs and src/microsoft.rs each
    declare these three records, with the same fields. */
module Envelope {
  import opened Wrappers
  import opened JsonValue

  /** `MSResponseErrorInner`: the `error` object of a Graph failure body. */
  datatype MSResponseErrorInner = MSResponseErrorInner(code: string, innerError: Json, message: string)

  /** `MSResponseError`: `{ "error": { ... } }`. */
  datatype MSResponseError = MSResponseError(error: MSResponseErrorInner)

  /** `MSResponse<T>`: a body holding a `value`, an `error`, both or neither. */
  datatype MSResponse<T> = MSResponse(value: Option<T>, error: Option<MSResponseError>)
}
