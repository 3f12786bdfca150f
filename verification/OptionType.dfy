/** A value that may be absent: NULL pointers, failed parses, empty slots. */
module OptionType {
  datatype Option<T> = None | Some(value: T)
}
