/**
 * JavaScript's `null`: a value that may be missing.
 */
module JsValue {

  /** `null` (None) or a present value. */
  datatype Option<T> = None | Some(value: T)
}
