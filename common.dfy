/** Small shared vocabulary. */
module Common {

  /** A value that may be absent (a null pointer, `npos`, "no source"). */
  datatype Option<+T> = None | Some(value: T)
}
