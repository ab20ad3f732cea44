/** Optional values and results, used wherever the proxy has a nil pointer or an error return. */
module Base {
  datatype Option<+T> = None | Some(value: T)

  datatype Result<+T, +E> = Ok(value: T) | Err(error: E)

  /** Where a text stands for bytes, each character is one byte. */
  predicate AreBytes(s: string) {
    forall i :: 0 <= i < |s| ==> s[i] as int < 256
  }
}
