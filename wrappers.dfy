/** Small value wrappers shared by the model. */
module Wrappers {

  /** A value that may be absent, as an optional property of a record is. */
  datatype Option<+T> = None | Some(value: T)

  /** A JSON value that is present but may be `null`; unlike `Option`, the
      field itself always exists in the serialised object. */
  datatype Nullable<+T> = Null | NonNull(value: T)

  function Min(a: int, b: int): int { if a < b then a else b }

  function Max(a: int, b: int): int { if a < b then b else a }
}
