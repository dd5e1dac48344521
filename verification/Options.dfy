/** Values that may be missing: absent, null and empty entries of the source's dictionaries. */
module Options {
  datatype Option<T> = None | Some(value: T)
}
