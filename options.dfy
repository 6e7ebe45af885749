/** The optional value used wherever a C function reports "found / not found"
    or "succeeded / failed" through its return code. */
module Options {
  datatype Option<T> = None | Some(value: T)
}
